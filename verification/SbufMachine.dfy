// hw6-concurrency/sbuf.c as a machine of atomic steps: one step per semaphore
// operation and one per shared memory access, for any number of threads.
module SbufMachine {

  // One call a thread still has to make.
  datatype Op = Insert(item: int) | Remove

  // The statement a thread executes next.  `++sp->rear` is a load followed by
  // a store, so it is two steps, and the array access is a third.
  datatype Pc =
    | Outside
    | InsLock | InsLoad | InsBump | InsStore | InsUnlock | InsPost
    | RemLock | RemLoad | RemBump | RemRead | RemUnlock | RemPost

  // `reg` is the incremented index, `item` the argument of sbuf_insert or the
  // local of sbuf_remove, and `got` the values sbuf_remove has returned so far.
  datatype Thread = Thread(todo: seq<Op>, pc: Pc, reg: int, item: int, got: seq<int>)

  // The fields of sbuf_t, the threads, and two history variables: every value
  // written into the buffer and every value read out of it, in order.
  datatype State = State(
    n: int, buf: seq<int>, front: int, rear: int,
    mutex: int, slots: int, items: int,
    threads: seq<Thread>, stored: seq<int>, taken: seq<int>)

  predicate Shape(s: State) {
    1 <= s.n && |s.buf| == s.n
  }

  function Start(program: seq<Op>): Thread {
    Thread(program, Outside, 0, 0, [])
  }

  // sbuf_init, with one thread for each program.
  function Init(n: int, programs: seq<seq<Op>>): State
    requires 1 <= n
  {
    State(n, seq(n, _ => 0), 0, 0, 1, n, 0,
          seq(|programs|, i requires 0 <= i < |programs| => Start(programs[i])), [], [])
  }

  // A thread is blocked exactly when it is at a sem_wait on a zero semaphore.
  predicate Enabled(s: State, t: nat) {
    t < |s.threads| &&
    var th := s.threads[t];
    match th.pc
    case Outside => th.todo != [] && (if th.todo[0].Insert? then s.slots > 0 else s.items > 0)
    case InsLock => s.mutex > 0
    case RemLock => s.mutex > 0
    case _ => true
  }

  function Moved(s: State, t: nat, th: Thread): State
    requires t < |s.threads|
  {
    s.(threads := s.threads[t := th])
  }

  function Step(s: State, t: nat): (r: State)
    requires Shape(s) && Enabled(s, t)
    ensures Shape(r) && r.n == s.n && |r.threads| == |s.threads|
  {
    var th := s.threads[t];
    match th.pc
    case Outside =>
      if th.todo[0].Insert? then
        Moved(s, t, th.(pc := InsLock, todo := th.todo[1..], item := th.todo[0].item)).(slots := s.slots - 1)
      else
        Moved(s, t, th.(pc := RemLock, todo := th.todo[1..])).(items := s.items - 1)
    case InsLock => Moved(s, t, th.(pc := InsLoad)).(mutex := s.mutex - 1)
    case InsLoad => Moved(s, t, th.(pc := InsBump, reg := s.rear + 1))
    case InsBump => Moved(s, t, th.(pc := InsStore)).(rear := th.reg)
    case InsStore =>
      Moved(s, t, th.(pc := InsUnlock)).(buf := s.buf[th.reg % s.n := th.item], stored := s.stored + [th.item])
    case InsUnlock => Moved(s, t, th.(pc := InsPost)).(mutex := s.mutex + 1)
    case InsPost => Moved(s, t, th.(pc := Outside)).(items := s.items + 1)
    case RemLock => Moved(s, t, th.(pc := RemLoad)).(mutex := s.mutex - 1)
    case RemLoad => Moved(s, t, th.(pc := RemBump, reg := s.front + 1))
    case RemBump => Moved(s, t, th.(pc := RemRead)).(front := th.reg)
    case RemRead =>
      var x := s.buf[th.reg % s.n];
      Moved(s, t, th.(pc := RemUnlock, item := x)).(taken := s.taken + [x])
    case RemUnlock => Moved(s, t, th.(pc := RemPost)).(mutex := s.mutex + 1)
    case RemPost => Moved(s, t, th.(pc := Outside, got := th.got + [th.item])).(slots := s.slots + 1)
  }

  // `sched` names the thread that moves at each step, and the run ends in `r`.
  ghost predicate Run(s: State, sched: seq<nat>, r: State)
    requires Shape(s)
    decreases |sched|
  {
    if sched == [] then r == s
    else Enabled(s, sched[0]) && Run(Step(s, sched[0]), sched[1..], r)
  }

  // ---- Counting threads --------------------------------------------------

  // What a thread contributes to each of the sums the invariant is about.
  datatype Role =
    | Holder        // is between sem_wait(&mutex) and sem_post(&mutex)
    | SlotTicket    // a producer that has passed sem_wait(&slots)
    | ItemTicket    // a consumer that has not yet posted to slots
    | Unannounced   // a producer that has stored but not posted to items
    | Untaken       // a consumer with an item ticket that has not read yet
    | Storing       // has advanced rear but not written the cell
    | Reading       // has advanced front but not read the cell
    | InsertsLeft   // values this thread will still store
    | RemovesLeft   // values this thread will still read
    | StepsLeft     // steps this thread will still take
    | Pending(x: int)   // times this thread will still store x
    | Received(x: int)  // times this thread has taken x out

  function Inserts(todo: seq<Op>): nat {
    if todo == [] then 0 else (if todo[0].Insert? then 1 else 0) + Inserts(todo[1..])
  }

  function Removes(todo: seq<Op>): nat {
    if todo == [] then 0 else (if todo[0].Remove? then 1 else 0) + Removes(todo[1..])
  }

  function Copies(x: int, todo: seq<Op>): nat {
    if todo == [] then 0 else One(todo[0] == Insert(x)) + Copies(x, todo[1..])
  }

  function Times(x: int, s: seq<int>): nat {
    if s == [] then 0 else Times(x, s[..|s| - 1]) + One(s[|s| - 1] == x)
  }

  lemma TimesAppend(x: int, s: seq<int>, v: int)
    ensures Times(x, s + [v]) == Times(x, s) + One(v == x)
  {
    assert (s + [v])[..|s|] == s;
  }

  function Remaining(pc: Pc): nat {
    match pc
    case Outside => 0
    case InsLock => 6 case InsLoad => 5 case InsBump => 4 case InsStore => 3 case InsUnlock => 2 case InsPost => 1
    case RemLock => 6 case RemLoad => 5 case RemBump => 4 case RemRead => 3 case RemUnlock => 2 case RemPost => 1
  }

  function One(b: bool): nat { if b then 1 else 0 }

  predicate InsBeforeStore(pc: Pc) { pc.InsLock? || pc.InsLoad? || pc.InsBump? || pc.InsStore? }
  predicate InsAfterStore(pc: Pc) { pc.InsUnlock? || pc.InsPost? }
  predicate RemBeforeRead(pc: Pc) { pc.RemLock? || pc.RemLoad? || pc.RemBump? || pc.RemRead? }
  predicate RemAfterRead(pc: Pc) { pc.RemUnlock? || pc.RemPost? }

  predicate Locked(pc: Pc) {
    || pc.InsLoad? || pc.InsBump? || pc.InsStore? || pc.InsUnlock?
    || pc.RemLoad? || pc.RemBump? || pc.RemRead? || pc.RemUnlock?
  }

  function Weight(r: Role, t: Thread): nat {
    match r
    case Holder => One(Locked(t.pc))
    case SlotTicket => One(InsBeforeStore(t.pc) || InsAfterStore(t.pc))
    case ItemTicket => One(RemBeforeRead(t.pc) || RemAfterRead(t.pc))
    case Unannounced => One(InsAfterStore(t.pc))
    case Untaken => One(RemBeforeRead(t.pc))
    case Storing => One(t.pc.InsStore?)
    case Reading => One(t.pc.RemRead?)
    case InsertsLeft => Inserts(t.todo) + One(InsBeforeStore(t.pc))
    case RemovesLeft => Removes(t.todo) + One(RemBeforeRead(t.pc))
    case StepsLeft => 7 * |t.todo| + Remaining(t.pc)
    case Pending(x) => Copies(x, t.todo) + One(InsBeforeStore(t.pc) && t.item == x)
    case Received(x) => Times(x, t.got) + One(RemAfterRead(t.pc) && t.item == x)
  }

  function Total(r: Role, ts: seq<Thread>): nat {
    if ts == [] then 0 else Weight(r, ts[0]) + Total(r, ts[1..])
  }

  lemma {:induction false} TotalUpdate(r: Role, ts: seq<Thread>, i: nat, t: Thread)
    requires i < |ts|
    ensures Total(r, ts[i := t]) + Weight(r, ts[i]) == Total(r, ts) + Weight(r, t)
  {
    if i == 0 {
      assert ts[i := t][1..] == ts[1..];
    } else {
      assert ts[i := t][1..] == ts[1..][i - 1 := t];
      TotalUpdate(r, ts[1..], i - 1, t);
    }
  }

  lemma {:induction false} TotalMember(r: Role, ts: seq<Thread>, i: nat)
    requires i < |ts|
    ensures Weight(r, ts[i]) <= Total(r, ts)
  {
    if i > 0 { TotalMember(r, ts[1..], i - 1); }
  }

  lemma {:induction false} TotalPair(r: Role, ts: seq<Thread>, i: nat, j: nat)
    requires i < j < |ts|
    ensures Weight(r, ts[i]) + Weight(r, ts[j]) <= Total(r, ts)
  {
    if i == 0 {
      TotalMember(r, ts[1..], j - 1);
    } else {
      TotalPair(r, ts[1..], i - 1, j - 1);
    }
  }

  // Every unannounced producer holds a slot ticket, every untaken consumer an
  // item ticket, and the cell is only touched under the mutex, so one total is
  // at most the other.
  predicate Within(a: Role, b: Role) {
    || (a.Unannounced? && b.SlotTicket?)
    || (a.Untaken? && b.ItemTicket?)
    || ((a.Storing? || a.Reading?) && b.Holder?)
  }

  lemma {:induction false} TotalWithin(a: Role, b: Role, ts: seq<Thread>)
    requires Within(a, b)
    ensures Total(a, ts) <= Total(b, ts)
  {
    if ts != [] { TotalWithin(a, b, ts[1..]); }
  }

  lemma {:induction false} TotalWithinAt(a: Role, b: Role, ts: seq<Thread>, i: nat)
    requires Within(a, b) && i < |ts|
    ensures Total(a, ts) + Weight(b, ts[i]) <= Total(b, ts) + Weight(a, ts[i])
  {
    if i == 0 { TotalWithin(a, b, ts[1..]); } else { TotalWithinAt(a, b, ts[1..], i - 1); }
  }

  // A sum over threads that have not started.
  lemma {:induction false} TotalStart(r: Role, programs: seq<seq<Op>>)
    requires !r.InsertsLeft? && !r.RemovesLeft? && !r.StepsLeft? && !r.Pending?
    ensures Total(r, seq(|programs|, i requires 0 <= i < |programs| => Start(programs[i]))) == 0
  {
    var ts := seq(|programs|, i requires 0 <= i < |programs| => Start(programs[i]));
    if programs != [] {
      var rest := programs[1..];
      assert ts[1..] == seq(|rest|, i requires 0 <= i < |rest| => Start(rest[i]));
      TotalStart(r, rest);
    }
  }

  // ---- The invariant -----------------------------------------------------

  // The three semaphores account for every thread inside a call.
  ghost predicate Counts(s: State) {
    && 0 <= s.mutex && 0 <= s.slots && 0 <= s.items
    && s.mutex + Total(Holder, s.threads) == 1
    && s.slots + s.items + Total(SlotTicket, s.threads) + Total(ItemTicket, s.threads) == s.n
    && |s.stored| == |s.taken| + s.items + Total(Unannounced, s.threads) + Total(Untaken, s.threads)
    && s.rear == |s.stored| + Total(Storing, s.threads)
    && s.front == |s.taken| + Total(Reading, s.threads)
  }

  // A thread that has loaded an index still agrees with the shared counter.
  predicate Agrees(th: Thread, rear: int, front: int) {
    match th.pc
    case InsBump => th.reg == rear + 1
    case InsStore => th.reg == rear
    case RemBump => th.reg == front + 1
    case RemRead => th.reg == front
    case _ => true
  }

  ghost predicate Registers(s: State) {
    forall i :: 0 <= i < |s.threads| ==> Agrees(s.threads[i], s.rear, s.front)
  }

  // The array position of the k-th value ever stored, counting from zero:
  // position 0 is filled last of the first round.
  function Cell(k: nat, n: nat): nat
    requires 1 <= n
    ensures Cell(k, n) < n
  {
    (k + 1) % n
  }

  // First in, first out; and the cells hold what is stored and not yet taken.
  ghost predicate Contents(s: State)
    requires Shape(s)
  {
    && |s.taken| <= |s.stored|
    && s.taken == s.stored[..|s.taken|]
    && forall k :: |s.taken| <= k < |s.stored| ==> s.buf[Cell(k, s.n)] == s.stored[k]
  }

  ghost predicate Inv(s: State) {
    Shape(s) && Counts(s) && Registers(s) && Contents(s)
  }

  lemma InitInv(n: int, programs: seq<seq<Op>>)
    requires 1 <= n
    ensures Inv(Init(n, programs))
  {
    TotalStart(Holder, programs);
    TotalStart(SlotTicket, programs);
    TotalStart(ItemTicket, programs);
    TotalStart(Unannounced, programs);
    TotalStart(Untaken, programs);
    TotalStart(Storing, programs);
    TotalStart(Reading, programs);
  }

  lemma MovedTotal(r: Role, s: State, t: nat)
    requires Shape(s) && Enabled(s, t)
    ensures Total(r, Step(s, t).threads) + Weight(r, s.threads[t]) == Total(r, s.threads) + Weight(r, Step(s, t).threads[t])
  {
    var th := Step(s, t).threads[t];
    assert Step(s, t).threads == s.threads[t := th];
    TotalUpdate(r, s.threads, t, th);
  }

  // How one step changes what the moving thread contributes, and that the
  // semaphores and counters move with it.
  lemma TicketDelta(s: State, t: nat)
    requires Shape(s) && Enabled(s, t)
    ensures var r := Step(s, t); var a, b := s.threads[t], r.threads[t];
      && r.slots + r.items + Weight(SlotTicket, b) + Weight(ItemTicket, b)
         == s.slots + s.items + Weight(SlotTicket, a) + Weight(ItemTicket, a)
      && (s.slots >= 0 && s.items >= 0 ==> r.slots >= 0 && r.items >= 0)
      && r.mutex + Weight(Holder, b) == s.mutex + Weight(Holder, a)
      && (s.mutex >= 0 ==> r.mutex >= 0)
  {
  }

  lemma ItemDelta(s: State, t: nat)
    requires Shape(s) && Enabled(s, t)
    ensures var r := Step(s, t); var a, b := s.threads[t], r.threads[t];
      |r.stored| - |r.taken| - r.items - Weight(Unannounced, b) - Weight(Untaken, b)
      == |s.stored| - |s.taken| - s.items - Weight(Unannounced, a) - Weight(Untaken, a)
  {
  }

  lemma IndexDelta(s: State, t: nat)
    requires Shape(s) && Enabled(s, t) && Registers(s)
    ensures var r := Step(s, t); var a, b := s.threads[t], r.threads[t];
      && r.rear - |r.stored| - Weight(Storing, b) == s.rear - |s.stored| - Weight(Storing, a)
      && r.front - |r.taken| - Weight(Reading, b) == s.front - |s.taken| - Weight(Reading, a)
  {
  }

  lemma BudgetDelta(s: State, t: nat)
    requires Shape(s) && Enabled(s, t)
    ensures var r := Step(s, t); var a, b := s.threads[t], r.threads[t];
      && Weight(StepsLeft, b) + 1 == Weight(StepsLeft, a)
      && |r.stored| + Weight(InsertsLeft, b) == |s.stored| + Weight(InsertsLeft, a)
      && |r.taken| + Weight(RemovesLeft, b) == |s.taken| + Weight(RemovesLeft, a)
  {
  }

  // What a step does to the values on their way in: taken from the program into `item`,
  // stored, or left alone.
  predicate Entered(a: Thread, b: Thread, stored: seq<int>, stored': seq<int>) {
    if a.pc.InsStore? then !InsBeforeStore(b.pc) && b.todo == a.todo && stored' == stored + [a.item]
    else if a.pc.Outside? then
      && a.todo != [] && b.todo == a.todo[1..] && stored' == stored && InsBeforeStore(b.pc) == a.todo[0].Insert?
      && (a.todo[0].Insert? ==> b.item == a.todo[0].item)
    else
      && b.todo == a.todo && stored' == stored
      && InsBeforeStore(a.pc) == InsBeforeStore(b.pc) && (InsBeforeStore(a.pc) ==> a.item == b.item)
  }

  lemma StepEnters(s: State, t: nat)
    requires Shape(s) && Enabled(s, t)
    ensures Entered(s.threads[t], Step(s, t).threads[t], s.stored, Step(s, t).stored)
  {
  }

  lemma EnteredCount(a: Thread, b: Thread, stored: seq<int>, stored': seq<int>, x: int)
    requires Entered(a, b, stored, stored')
    ensures Times(x, stored') + Weight(Pending(x), b) == Times(x, stored) + Weight(Pending(x), a)
  {
    if a.pc.InsStore? { TimesAppend(x, stored, a.item); }
  }

  // What a step does to the values on their way out: read into `item`, moved
  // from `item` to `got`, or left alone.
  predicate Handed(a: Thread, b: Thread, taken: seq<int>, taken': seq<int>) {
    if a.pc.RemRead? then b.pc.RemUnlock? && b.got == a.got && taken' == taken + [b.item]
    else if a.pc.RemPost? then b.pc.Outside? && b.got == a.got + [a.item] && taken' == taken
    else
      && b.got == a.got && taken' == taken
      && RemAfterRead(a.pc) == RemAfterRead(b.pc) && (RemAfterRead(a.pc) ==> a.item == b.item)
  }

  lemma StepHands(s: State, t: nat)
    requires Shape(s) && Enabled(s, t)
    ensures Handed(s.threads[t], Step(s, t).threads[t], s.taken, Step(s, t).taken)
  {
  }

  lemma HandedCount(a: Thread, b: Thread, taken: seq<int>, taken': seq<int>, x: int)
    requires Handed(a, b, taken, taken')
    ensures Times(x, taken') + Weight(Received(x), a) == Times(x, taken) + Weight(Received(x), b)
  {
    if a.pc.RemRead? {
      TimesAppend(x, taken, b.item);
    } else if a.pc.RemPost? {
      TimesAppend(x, a.got, a.item);
    }
  }

  lemma TakenDelta(s: State, t: nat, x: int)
    requires Shape(s) && Enabled(s, t)
    ensures var r := Step(s, t);
      Times(x, r.taken) + Weight(Received(x), s.threads[t]) == Times(x, s.taken) + Weight(Received(x), r.threads[t])
  {
    StepHands(s, t);
    HandedCount(s.threads[t], Step(s, t).threads[t], s.taken, Step(s, t).taken, x);
  }

  lemma StepCounts(s: State, t: nat)
    requires Shape(s) && Enabled(s, t) && Counts(s) && Registers(s)
    ensures Counts(Step(s, t))
  {
    TicketDelta(s, t);
    ItemDelta(s, t);
    IndexDelta(s, t);
    MovedTotal(Holder, s, t);
    MovedTotal(SlotTicket, s, t);
    MovedTotal(ItemTicket, s, t);
    MovedTotal(Unannounced, s, t);
    MovedTotal(Untaken, s, t);
    MovedTotal(Storing, s, t);
    MovedTotal(Reading, s, t);
  }

  // Mutual exclusion: two distinct threads are never both between their
  // sem_wait(&mutex) and sem_post(&mutex).
  lemma MutualExclusion(s: State, i: nat, j: nat)
    requires Counts(s) && i < |s.threads| && j < |s.threads| && i != j
    ensures !(Locked(s.threads[i].pc) && Locked(s.threads[j].pc))
    ensures s.mutex == 1 ==> !Locked(s.threads[i].pc)
  {
    if i < j { TotalPair(Holder, s.threads, i, j); } else { TotalPair(Holder, s.threads, j, i); }
  }

  lemma StepAgrees(s: State, t: nat, i: nat)
    requires Shape(s) && Enabled(s, t) && Counts(s) && i < |s.threads|
    requires Agrees(s.threads[i], s.rear, s.front) && Agrees(s.threads[t], s.rear, s.front)
    ensures var r := Step(s, t); Agrees(r.threads[i], r.rear, r.front)
  {
    if i != t { MutualExclusion(s, i, t); }
  }

  lemma StepRegisters(s: State, t: nat)
    requires Shape(s) && Enabled(s, t) && Counts(s) && Registers(s)
    ensures Registers(Step(s, t))
  {
    var r := Step(s, t);
    forall i | 0 <= i < |r.threads| ensures Agrees(r.threads[i], r.rear, r.front) {
      StepAgrees(s, t, i);
    }
  }

  lemma Multiples(q: int, n: int)
    requires 0 < n
    ensures q >= 1 ==> q * n >= n
    ensures q <= 0 ==> q * n <= 0
  {
  }

  lemma DistinctCells(i: nat, j: nat, n: nat)
    requires i < j < i + n
    ensures Cell(i, n) != Cell(j, n)
  {
    var qi, qj := (i + 1) / n, (j + 1) / n;
    if Cell(i, n) == Cell(j, n) {
      assert j - i == qj * n - qi * n == (qj - qi) * n;
      Multiples(qj - qi, n);
    }
  }

  // At most n - 1 values are waiting when a producer is about to store, and at
  // least one is when a consumer is about to read.
  lemma Room(s: State, t: nat)
    requires Counts(s) && t < |s.threads|
    ensures InsBeforeStore(s.threads[t].pc) ==> |s.stored| - |s.taken| < s.n
    ensures RemBeforeRead(s.threads[t].pc) ==> |s.stored| > |s.taken|
    ensures 0 <= |s.stored| - |s.taken| <= s.n
  {
    TotalWithinAt(Unannounced, SlotTicket, s.threads, t);
    TotalWithin(Unannounced, SlotTicket, s.threads);
    TotalWithin(Untaken, ItemTicket, s.threads);
    TotalMember(Untaken, s.threads, t);
  }

  // The index a thread is about to use is the one after all earlier stores, or
  // after all earlier reads: no other thread is between its two steps.
  lemma NextIndex(s: State, t: nat)
    requires Counts(s) && Registers(s) && t < |s.threads|
    ensures s.threads[t].pc.InsStore? ==> s.threads[t].reg == |s.stored| + 1
    ensures s.threads[t].pc.RemRead? ==> s.threads[t].reg == |s.taken| + 1
  {
    TotalWithin(Storing, Holder, s.threads);
    TotalMember(Storing, s.threads, t);
    TotalWithin(Reading, Holder, s.threads);
    TotalMember(Reading, s.threads, t);
  }

  lemma StepContents(s: State, t: nat)
    requires Inv(s) && Enabled(s, t)
    ensures Contents(Step(s, t))
  {
    Room(s, t);
    NextIndex(s, t);
    if s.threads[t].pc.InsStore? {
      forall k | |s.taken| <= k < |s.stored| ensures Cell(k, s.n) != Cell(|s.stored|, s.n) {
        DistinctCells(k, |s.stored|, s.n);
      }
    }
  }

  lemma StepInv(s: State, t: nat)
    requires Inv(s) && Enabled(s, t)
    ensures Inv(Step(s, t))
  {
    StepCounts(s, t);
    StepRegisters(s, t);
    StepContents(s, t);
  }

  // Every state of every schedule satisfies the invariant.
  lemma {:induction false} RunInv(s: State, sched: seq<nat>, r: State)
    requires Inv(s) && Run(s, sched, r)
    ensures Inv(r) && r.n == s.n && |r.threads| == |s.threads|
    decreases |sched|
  {
    if sched != [] {
      StepInv(s, sched[0]);
      RunInv(Step(s, sched[0]), sched[1..], r);
    }
  }
}

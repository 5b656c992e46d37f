// Whose values the sbuf machine stores and hands out, and in which order; and what
// it can come to when threads both insert and remove.
module SbufOrder {
  import opened SbufMachine
  import opened SbufRuns

  // ---- Program order -------------------------------------------------------------

  // A value with the thread that stored it, or that took it.
  type Log = seq<(nat, int)>

  function Values(log: Log): seq<int> {
    if log == [] then [] else [log[0].1] + Values(log[1..])
  }

  function By(log: Log, t: nat): seq<int> {
    if log == [] then [] else (if log[0].0 == t then [log[0].1] else []) + By(log[1..], t)
  }

  // The store, or the read, that one step makes.
  function StoreOf(s: State, t: nat): Log
    requires Shape(s) && Enabled(s, t)
  {
    if s.threads[t].pc.InsStore? then [(t, s.threads[t].item)] else []
  }

  function TakeOf(s: State, t: nat): Log
    requires Shape(s) && Enabled(s, t)
  {
    if s.threads[t].pc.RemRead? then [(t, Step(s, t).threads[t].item)] else []
  }

  // Those along a run.
  ghost function Stores(s: State, sched: seq<nat>): Log
    requires Shape(s)
    decreases |sched|
  {
    if sched == [] || !Enabled(s, sched[0]) then []
    else StoreOf(s, sched[0]) + Stores(Step(s, sched[0]), sched[1..])
  }

  ghost function Takes(s: State, sched: seq<nat>): Log
    requires Shape(s)
    decreases |sched|
  {
    if sched == [] || !Enabled(s, sched[0]) then []
    else TakeOf(s, sched[0]) + Takes(Step(s, sched[0]), sched[1..])
  }

  function Items(todo: seq<Op>): seq<int> {
    if todo == [] then [] else (if todo[0].Insert? then [todo[0].item] else []) + Items(todo[1..])
  }

  // What a thread has still to store, in the order of its program.
  function Owed(th: Thread): seq<int> {
    (if InsBeforeStore(th.pc) then [th.item] else []) + Items(th.todo)
  }

  // What a thread has taken out, in the order in which it got it.
  function Held(th: Thread): seq<int> {
    th.got + (if RemAfterRead(th.pc) then [th.item] else [])
  }

  lemma StepOwed(s: State, t: nat, i: nat)
    requires Shape(s) && Enabled(s, t) && i < |s.threads|
    ensures Owed(s.threads[i]) == By(StoreOf(s, t), i) + Owed(Step(s, t).threads[i])
    ensures Step(s, t).stored == s.stored + Values(StoreOf(s, t))
  {
    LogCons((t, s.threads[t].item), [], i);
    assert [(t, s.threads[t].item)] + [] == [(t, s.threads[t].item)];
    assert Values([]) == [] && By([], i) == [];
    hide By, Values;
    if i != t {
      assert Step(s, t).threads[i] == s.threads[i];
      hide Owed;
    }
  }

  lemma StepHeld(s: State, t: nat, i: nat)
    requires Shape(s) && Enabled(s, t) && i < |s.threads|
    ensures Held(Step(s, t).threads[i]) == Held(s.threads[i]) + By(TakeOf(s, t), i)
    ensures Step(s, t).taken == s.taken + Values(TakeOf(s, t))
  {
    StepHands(s, t);
  }

  lemma {:induction false} LogAppend(a: Log, b: Log, t: nat)
    ensures Values(a + b) == Values(a) + Values(b) && By(a + b, t) == By(a, t) + By(b, t)
  {
    if a == [] {
      assert a + b == b && Values([]) == [] && By([], t) == [];
    } else {
      var rest := a[1..];
      assert a + b == [a[0]] + (rest + b) && a == [a[0]] + rest;
      LogAppend(rest, b, t);
      LogCons(a[0], rest + b, t);
      LogCons(a[0], rest, t);
      hide Values, By;
      Associate([a[0].1], Values(rest), Values(b));
      Associate(if a[0].0 == t then [a[0].1] else [], By(rest, t), By(b, t));
    }
  }

  lemma LogCons(x: (nat, int), log: Log, t: nat)
    ensures Values([x] + log) == [x.1] + Values(log)
    ensures By([x] + log, t) == (if x.0 == t then [x.1] else []) + By(log, t)
  {
    assert ([x] + log)[1..] == log;
  }

  lemma Associate(a: seq<int>, b: seq<int>, c: seq<int>)
    ensures (a + b) + c == a + (b + c)
  {
  }

  lemma {:induction false} RunStores(s: State, sched: seq<nat>, r: State, i: nat)
    requires Shape(s) && Run(s, sched, r) && i < |s.threads|
    ensures |r.threads| == |s.threads|
    ensures r.stored == s.stored + Values(Stores(s, sched))
    ensures Owed(s.threads[i]) == By(Stores(s, sched), i) + Owed(r.threads[i])
    decreases |sched|
  {
    if sched != [] {
      var m, first, later := Step(s, sched[0]), StoreOf(s, sched[0]), Stores(Step(s, sched[0]), sched[1..]);
      RunStores(m, sched[1..], r, i);
      StepOwed(s, sched[0], i);
      assert Stores(s, sched) == first + later;
      hide Owed, Step, Enabled, StoreOf, Stores, Run;
      LogAppend(first, later, i);
      Associate(s.stored, Values(first), Values(later));
      Associate(By(first, i), By(later, i), Owed(r.threads[i]));
    }
  }

  lemma {:induction false} RunTakes(s: State, sched: seq<nat>, r: State, i: nat)
    requires Shape(s) && Run(s, sched, r) && i < |s.threads|
    ensures |r.threads| == |s.threads|
    ensures r.taken == s.taken + Values(Takes(s, sched))
    ensures Held(r.threads[i]) == Held(s.threads[i]) + By(Takes(s, sched), i)
    decreases |sched|
  {
    if sched != [] {
      var m, first, later := Step(s, sched[0]), TakeOf(s, sched[0]), Takes(Step(s, sched[0]), sched[1..]);
      RunTakes(m, sched[1..], r, i);
      StepHeld(s, sched[0], i);
      assert Takes(s, sched) == first + later;
      hide Held, Step, Enabled, TakeOf, Takes, Run;
      LogAppend(first, later, i);
      Associate(s.taken, Values(first), Values(later));
      Associate(Held(s.threads[i]), By(first, i), By(later, i));
    }
  }

  // In every state of every run, what has been stored is an interleaving of the
  // threads' inserts, each thread's in the order of its program and with the ones it
  // still owes at the end; what has been taken is an interleaving of what the threads
  // got, each thread's in the order in which it got them; and the latter is a prefix
  // of the former.
  lemma ProgramOrder(n: int, programs: seq<seq<Op>>, sched: seq<nat>, s: State, t: nat)
    requires 1 <= n && Run(Init(n, programs), sched, s) && t < |programs|
    ensures |s.threads| == |programs| && s.taken <= s.stored
    ensures s.stored == Values(Stores(Init(n, programs), sched)) && s.taken == Values(Takes(Init(n, programs), sched))
    ensures By(Stores(Init(n, programs), sched), t) + Owed(s.threads[t]) == Items(programs[t])
    ensures By(Takes(Init(n, programs), sched), t) == Held(s.threads[t])
  {
    hide Values, By, Run, Stores, Takes;
    var init := Init(n, programs);
    RunIsFifo(n, programs, sched, s);
    RunStores(init, sched, s, t);
    RunTakes(init, sched, s, t);
    assert init.threads[t] == Start(programs[t]);
    assert Owed(init.threads[t]) == Items(programs[t]) && Held(init.threads[t]) == [];
    assert [] + Values(Stores(init, sched)) == Values(Stores(init, sched));
    assert [] + Values(Takes(init, sched)) == Values(Takes(init, sched));
    assert [] + By(Takes(init, sched), t) == By(Takes(init, sched), t);
  }

  // ---- Threads that both insert and remove ----------------------------------------

  lemma RunOne(s: State, t: nat)
    requires Shape(s) && Enabled(s, t)
    ensures Run(s, [t], Step(s, t))
  {
    assert [t][1..] == [];
  }

  lemma {:induction false} RunAppend(s: State, a: seq<nat>, m: State, b: seq<nat>, r: State)
    requires Shape(s) && Run(s, a, m) && Shape(m) && Run(m, b, r)
    ensures Run(s, a + b, r)
    decreases |a|
  {
    if a == [] {
      assert a + b == b;
    } else {
      RunAppend(Step(s, a[0]), a[1..], m, b, r);
      assert (a + b)[1..] == a[1..] + b;
    }
  }

  // r is s after thread t has gone through the rest of its call on its own.
  predicate Through(s: State, t: nat, r: State) {
    && t < |s.threads| == |r.threads| && r.threads == s.threads[t := r.threads[t]] && r.n == s.n
    && r.threads[t].pc.Outside? && r.threads[t].todo == s.threads[t].todo
    && r.slots == s.slots + One(RemBeforeRead(s.threads[t].pc) || RemAfterRead(s.threads[t].pc))
    && r.items == s.items + One(InsBeforeStore(s.threads[t].pc) || InsAfterStore(s.threads[t].pc))
    && r.mutex == s.mutex + One(Locked(s.threads[t].pc))
  }

  lemma ThroughStep(s: State, t: nat, r: State)
    requires Shape(s) && Enabled(s, t) && !s.threads[t].pc.Outside? && Through(Step(s, t), t, r)
    ensures Through(s, t, r)
  {
    assert Step(s, t).threads == s.threads[t := Step(s, t).threads[t]];
  }

  // A thread inside a call can finish it while the others wait.
  lemma {:induction false} Alone(s: State, t: nat) returns (sched: seq<nat>, r: State)
    requires Shape(s) && t < |s.threads|
    requires (s.threads[t].pc.InsLock? || s.threads[t].pc.RemLock?) ==> s.mutex > 0
    ensures Run(s, sched, r) && Shape(r) && Through(s, t, r)
    decreases Remaining(s.threads[t].pc)
  {
    if s.threads[t].pc.Outside? {
      sched, r := [], s;
    } else {
      RunOne(s, t);
      sched, r := Alone(Step(s, t), t);
      ThroughStep(s, t, r);
      hide Step, Run, Through;
      RunAppend(s, [t], Step(s, t), sched, r);
      sched := [t] + sched;
    }
  }

  // All of the next call of thread t, from a state with nobody inside.
  lemma OneCall(s: State, t: nat) returns (sched: seq<nat>, r: State)
    requires Shape(s) && Enabled(s, t) && s.threads[t].pc.Outside? && s.mutex == 1
    ensures Run(s, sched, r) && Shape(r) && r.mutex == 1 && r.n == s.n
    ensures |r.threads| == |s.threads| && r.threads == s.threads[t := r.threads[t]]
    ensures r.threads[t].pc.Outside? && r.threads[t].todo == s.threads[t].todo[1..]
    ensures if s.threads[t].todo[0].Insert? then r.slots == s.slots - 1 && r.items == s.items + 1
      else r.slots == s.slots + 1 && r.items == s.items - 1
  {
    RunOne(s, t);
    sched, r := Alone(Step(s, t), t);
    RunAppend(s, [t], Step(s, t), sched, r);
    sched := [t] + sched;
  }

  // One thread removes and then inserts, another inserts and then removes, and the
  // buffer has one slot.  If the second takes back its own value the first is stuck;
  // if the first takes it, both finish.
  function Mixed(): seq<seq<Op>> { [[Remove, Insert(1)], [Insert(2), Remove]] }

  // Between calls, with a and b still to come and `items` values in the buffer.
  ghost predicate Between(s: State, a: seq<Op>, b: seq<Op>, items: int) {
    && Shape(s) && s.mutex == 1 && |s.threads| == 2 && s.items == items && s.slots == 1 - items
    && s.threads[0].pc.Outside? && s.threads[0].todo == a && s.threads[1].pc.Outside? && s.threads[1].todo == b
  }

  lemma CallBetween(s: State, a: seq<Op>, b: seq<Op>, items: int, t: nat) returns (sched: seq<nat>, r: State)
    requires Between(s, a, b, items) && t < 2 && (if t == 0 then a else b) != []
    requires items == if (if t == 0 then a else b)[0].Insert? then 0 else 1
    ensures Run(s, sched, r) && Shape(r) && Between(r, if t == 0 then a[1..] else a, if t == 1 then b[1..] else b, 1 - items)
  {
    sched, r := OneCall(s, t);
  }

  lemma MixedDependsOnSchedule() returns (bad: seq<nat>, s: State, good: seq<nat>, r: State)
    ensures Run(Init(1, Mixed()), bad, s) && Stuck(s) && !Finished(s)
    ensures Run(Init(1, Mixed()), good, r) && Stuck(r) && Finished(r)
  {
    var init := Init(1, Mixed());
    var a, b: seq<Op> := [Remove, Insert(1)], [Insert(2), Remove];
    assert Between(init, a, b, 0) && a[1..] == [Insert(1)] && a[1..][1..] == [] && b[1..] == [Remove] && b[1..][1..] == [];
    assert Shape(init);
    hide Run, Between, Init, Shape;
    var first, m := CallBetween(init, a, b, 0, 1);
    var more;
    more, s := CallBetween(m, a, [Remove], 1, 1);
    RunAppend(init, first, m, more, s);
    bad := first + more;
    NotFinished(s, a);
    var k, l;
    more, k := CallBetween(m, a, [Remove], 1, 0);
    RunAppend(init, first, m, more, k);
    good := first + more;
    more, l := CallBetween(k, [Insert(1)], [Remove], 0, 0);
    RunAppend(init, good, k, more, l);
    good := good + more;
    more, r := CallBetween(l, [], [Remove], 1, 1);
    RunAppend(init, good, l, more, r);
    good := good + more;
    AllFinished(r);
  }

  lemma NotFinished(s: State, a: seq<Op>)
    requires Between(s, a, [], 0) && a != [] && a[0].Remove?
    ensures Stuck(s) && !Finished(s)
  {
    assert s.threads[0].todo != [];
  }

  lemma AllFinished(s: State)
    requires Between(s, [], [], 0)
    ensures Stuck(s) && Finished(s)
  {
  }
}

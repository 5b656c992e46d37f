// What parseargs of shell-lab1/tsh.c leaves for every argv, pipelines or not: which
// words act as operators, and which slots they fill.
module PipelineSlots {
  import opened CStrings
  import opened PipelineArgs

  // The word at i acts as an operator: it is one, it is not the first word, and the
  // word before it is not an operator that takes it.
  predicate Acts(args: seq<string>, i: nat) {
    0 < i < |args| && Operator(args[i]) && !Acts(args, i - 1)
  }

  // The word at s is taken by the operator op before it.
  predicate Takes(args: seq<string>, op: string, s: int) {
    1 < s < |args| && args[s - 1] == op && Acts(args, s - 1)
  }

  // s is the last word between lo and hi that op takes, or -1 if there is none.
  ghost predicate LastTaken(args: seq<string>, op: string, lo: int, hi: int, s: int) {
    if s == -1 then forall t :: lo < t < hi ==> !Takes(args, op, t)
    else lo < s < hi && Takes(args, op, s) && forall t :: s < t < hi ==> !Takes(args, op, t)
  }

  // The words before i that act as operators have become NULL.
  ghost predicate Nulls(args: seq<string>, argv: seq<Option<string>>, i: nat) {
    && |argv| == |args| + 1 && argv[|args|] == None
    && forall k :: 0 <= k < |args| ==> argv[k] == if k < i && Acts(args, k) then None else Some(args[k])
  }

  // The commands start at 0 and at the words that a | takes.
  ghost predicate Starts(args: seq<string>, cmds: seq<int>, i: nat) {
    forall p :: p in cmds <==> p == 0 || (p <= i && Takes(args, "|", p))
  }

  // The slot of each command is the last word in it that op takes.
  ghost predicate Filled(args: seq<string>, op: string, cmds: seq<int>, slots: seq<int>, i: nat) {
    |slots| == |cmds| && forall c :: 0 <= c < |cmds| ==> LastTaken(args, op, cmds[c], Limit(cmds, c, i), slots[c])
  }

  // What the slots are when the words before i have been looked at.
  ghost predicate Exact(args: seq<string>, r: Slots, i: nat) {
    && Shape(args, r) && Ordered(r, i) && Nulls(args, r.argv, i) && Starts(args, r.cmds, i)
    && Filled(args, "<", r.cmds, r.ins, i) && Filled(args, ">", r.cmds, r.outs, i)
  }

  lemma LastTakenFurther(args: seq<string>, op: string, lo: int, hi: int, s: int)
    requires LastTaken(args, op, lo, hi, s) && !Takes(args, op, hi)
    ensures LastTaken(args, op, lo, hi + 1, s)
  {
  }

  lemma FilledFurther(args: seq<string>, op: string, cmds: seq<int>, slots: seq<int>, i: nat)
    requires Filled(args, op, cmds, slots, i) && !Takes(args, op, i)
    ensures Filled(args, op, cmds, slots, i + 1)
  {
    forall c | 0 <= c < |cmds| ensures LastTaken(args, op, cmds[c], Limit(cmds, c, i + 1), slots[c]) {
      if c + 1 == |cmds| { LastTakenFurther(args, op, cmds[c], i, slots[c]); }
    }
  }

  lemma StartsFurther(args: seq<string>, cmds: seq<int>, i: nat)
    requires Starts(args, cmds, i) && !Takes(args, "|", i + 1)
    ensures Starts(args, cmds, i + 1)
  {
  }

  // Looking at the word at i, which is made NULL if it acts as an operator.
  lemma LookExact(args: seq<string>, r: Slots, i: nat)
    requires 0 < i < |args| && Exact(args, r, i) && !Acts(args, i - 1)
    ensures Acts(args, i) <==> Operator(args[i])
    ensures Nulls(args, if Operator(args[i]) then r.argv[i := None] else r.argv, i + 1)
    ensures Ordered(r, i + 1) && Filled(args, "<", r.cmds, r.ins, i + 1) && Filled(args, ">", r.cmds, r.outs, i + 1)
    ensures !(Acts(args, i) && args[i] == "|" && i + 1 < |args|) ==> Starts(args, r.cmds, i + 1)
  {
    OrderedLater(r, i, i + 1);
    hide Ordered, Filled;
    FilledFurther(args, "<", r.cmds, r.ins, i);
    FilledFurther(args, ">", r.cmds, r.outs, i);
    hide Nulls;
    if !(Acts(args, i) && args[i] == "|" && i + 1 < |args|) { StartsFurther(args, r.cmds, i); }
  }

  lemma FilledLast(args: seq<string>, op: string, cmds: seq<int>, slots: seq<int>, i: nat)
    requires cmds != [] && Filled(args, op, cmds, slots, i) && Takes(args, op, i)
    requires cmds[|cmds| - 1] < i
    ensures Filled(args, op, cmds, SetLast(slots, i), i + 1)
  {
  }

  lemma FilledNew(args: seq<string>, op: string, cmds: seq<int>, slots: seq<int>, i: nat)
    requires cmds != [] && Filled(args, op, cmds, slots, i)
    ensures Filled(args, op, cmds + [i], slots + [-1], i + 1)
  {
    var starts := cmds + [i];
    forall c | 0 <= c < |starts| ensures LastTaken(args, op, starts[c], Limit(starts, c, i + 1), (slots + [-1])[c]) {
      if c < |cmds| { assert Limit(starts, c, i + 1) == Limit(cmds, c, i); }
    }
  }

  // The operator at i takes the word behind it.
  lemma TakeExact(args: seq<string>, r: Slots, i: nat)
    requires 0 < i && i + 1 < |args| && Shape(args, r) && Ordered(r, i) && Acts(args, i) && Nulls(args, r.argv, i + 1)
    requires Filled(args, "<", r.cmds, r.ins, i + 1) && Filled(args, ">", r.cmds, r.outs, i + 1)
    requires Starts(args, r.cmds, i)
    ensures Exact(args, Applied(args[i], i, r), i + 2) && !Acts(args, i + 1)
  {
    AppliedOrdered(args[i], i, r);
    assert Nulls(args, r.argv, i + 2);
    assert Takes(args, args[i], i + 1);
    assert r.cmds[|r.cmds| - 1] < i;
    assert !Acts(args, i + 1) && !Takes(args, "|", i + 2);
    TakeStarts(args, r.cmds, i);
    hide Ordered, Filled, Nulls, Starts;
    if args[i] == "<" {
      FilledLast(args, "<", r.cmds, r.ins, i + 1);
      FilledFurther(args, ">", r.cmds, r.outs, i + 1);
    } else if args[i] == ">" {
      FilledFurther(args, "<", r.cmds, r.ins, i + 1);
      FilledLast(args, ">", r.cmds, r.outs, i + 1);
    } else {
      FilledNew(args, "<", r.cmds, r.ins, i + 1);
      FilledNew(args, ">", r.cmds, r.outs, i + 1);
    }
  }

  lemma TakeStarts(args: seq<string>, cmds: seq<int>, i: nat)
    requires 0 < i && i + 1 < |args| && Acts(args, i) && Starts(args, cmds, i)
    ensures Starts(args, if args[i] == "|" then cmds + [i + 1] else cmds, i + 2)
  {
    assert !Takes(args, "|", i + 2);
  }

  lemma {:induction false} ScanExact(args: seq<string>, i: nat, r: Slots)
    requires 0 < i <= |args| && Exact(args, r, i) && !Acts(args, i - 1)
    ensures Exact(args, Scan(args, i, r), |args|)
    decreases |args| - i
  {
    hide Filled, Nulls, Starts, Applied, LastTaken, Takes, Acts;
    if i < |args| {
      LookExact(args, r, i);
      if !Operator(args[i]) {
        ScanExact(args, i + 1, r);
      } else {
        var cut := r.(argv := r.argv[i := None]);
        if i + 1 < |args| {
          TakeExact(args, cut, i);
          ScanExact(args, i + 2, Applied(args[i], i, cut));
        }
      }
    }
  }

  // For every argv: a word becomes NULL exactly if it acts as an operator, commands
  // start at 0 and at just the words that a | takes, in this order, and the slots of
  // a command are the last words that < and > take in it.
  lemma SlotsExact(args: seq<string>)
    requires args != []
    ensures Exact(args, Result(args), |args|)
  {
    ScanExact(args, 1, Slots(Strings(args), [0], [-1], [-1]));
  }
}

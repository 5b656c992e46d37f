// The loops of hw6-concurrency/csapp.c that repeat interrupted calls: how many bytes
// they move, and exactly when they fail.
module Retries {
  import opened Kernel

  const RIO_BUFSIZE: nat := 8192

  // How many bytes a loop of calls moves, and whether an error ends it.
  datatype Progress = Progress(count: nat, failed: bool)

  // After m of these bytes, q is still to come.
  predicate Leaves(p: Progress, m: nat, q: Progress) { p.count == m + q.count && p.failed == q.failed }

  // Reading up to n bytes, at most `chunk` in a call: interrupted calls are repeated,
  // end of file ends it, and so does any other error.
  function Reading(script: seq<Outcome>, nonblocking: bool, chunk: nat, n: nat, available: nat): Progress {
    if n == 0 then Progress(0, false)
    else if script == [] then Progress(if nonblocking then 0 else Min(n, available), nonblocking)
    else if script[0] == Refuse(EINTR) then Reading(script[1..], nonblocking, chunk, n, available)
    else if !script[0].Move? then Progress(0, true)
    else
      var m := Moved(script[0].k, Min(n, chunk), available);
      if m == 0 then Progress(0, false)
      else
        var rest := Reading(script[1..], nonblocking, chunk, n - m, available - m);
        Progress(m + rest.count, rest.failed)
  }

  // Filling a buffer of RIO_BUFSIZE bytes whenever it is empty: how many bytes come
  // before end of file or before an error.
  function Filling(script: seq<Outcome>, nonblocking: bool, available: nat): Progress {
    Reading(script, nonblocking, RIO_BUFSIZE, available + 1, available)
  }

  // One call.
  lemma ReadingStep(script: seq<Outcome>, nonblocking: bool, chunk: nat, n: nat, available: nat)
    requires n <= chunk
    ensures var o, p := Next(script, nonblocking, n), Reading(script, nonblocking, chunk, n, available);
      if n == 0 then p == Progress(0, false)
      else if o.Move? then
        var m := Moved(o.k, n, available);
        if m == 0 then p == Progress(0, false)
        else Leaves(p, m, Reading(Rest(script), nonblocking, chunk, n - m, available - m))
      else if o == Refuse(EINTR) then p == Reading(Rest(script), nonblocking, chunk, n, available)
      else p == Progress(0, true)
  {
  }

  lemma FillingStep(script: seq<Outcome>, nonblocking: bool, available: nat)
    ensures var o, p := Next(script, nonblocking, RIO_BUFSIZE), Filling(script, nonblocking, available);
      if o.Move? then
        var m := Moved(o.k, RIO_BUFSIZE, available);
        if m == 0 then p == Progress(0, false) else Leaves(p, m, Filling(Rest(script), nonblocking, available - m))
      else if o == Refuse(EINTR) then p == Filling(Rest(script), nonblocking, available)
      else p == Progress(0, true)
  {
  }

  // Without an error all is read that is there, or all that was asked for.
  lemma {:induction false} ReadingAll(script: seq<Outcome>, nonblocking: bool, chunk: nat, n: nat, available: nat)
    requires chunk > 0
    ensures var p := Reading(script, nonblocking, chunk, n, available);
      p.count <= Min(n, available) && (!p.failed ==> p.count == Min(n, available)) && (p.failed ==> p.count < n)
    ensures Benign(script) && !nonblocking ==> !Reading(script, nonblocking, chunk, n, available).failed
    decreases |script|
  {
    if n > 0 && script != [] {
      if script[0].Move? {
        var m := Moved(script[0].k, Min(n, chunk), available);
        if m > 0 { ReadingAll(script[1..], nonblocking, chunk, n - m, available - m); }
      } else {
        ReadingAll(script[1..], nonblocking, chunk, n, available);
      }
    }
  }

  // Calls that move bytes, and are followed by one that fails if `ended`, amount to p:
  // it fails exactly if the failing call comes before the others have moved n bytes and
  // before one of them has met end of file, and until then they move all they can.
  ghost predicate AmountsTo(moving: seq<Outcome>, ended: bool, chunk: nat, n: nat, available: nat, p: Progress) {
    var through := Min(Total(moving, chunk), available);
    && (p.failed <==> ended && through < n && (moving == [] || Total(moving[..|moving| - 1], chunk) < available))
    && (p.failed ==> p.count == through)
  }

  lemma OneMore(o: Outcome, more: seq<Outcome>, ended: bool, chunk: nat, n: nat, available: nat, p: Progress)
    requires o.Move? && n > 0 && chunk > 0
    ensures var m := Moved(o.k, Min(n, chunk), available);
      && (m == 0 ==> AmountsTo([o] + more, ended, chunk, n, available, Progress(0, false)))
      && (m > 0 && AmountsTo(more, ended, chunk, n - m, available - m, p)
          ==> AmountsTo([o] + more, ended, chunk, n, available, Progress(m + p.count, p.failed)))
  {
    var moving := [o] + more;
    assert moving[1..] == more;
    if more != [] { assert moving[..|moving| - 1][1..] == more[..|more| - 1]; }
  }

  // It fails exactly if, interrupted calls left aside, a failing call ends it.
  lemma {:induction false} ReadingFailsIff(script: seq<Outcome>, nonblocking: bool, chunk: nat, n: nat, available: nat)
    requires chunk > 0
    ensures var calls := Without(script, {Refuse(EINTR)});
      AmountsTo(Leading(calls), |Leading(calls)| < |calls| || nonblocking, chunk, n, available,
                Reading(script, nonblocking, chunk, n, available))
    decreases |script|
  {
    hide AmountsTo, Without, Total, Reading;
    var calls, moving := Without(script, {Refuse(EINTR)}), Leading(Without(script, {Refuse(EINTR)}));
    if script == [] || n == 0 {
      OverAtOnce(script, nonblocking, chunk, n, available);
    } else {
      var later := Without(script[1..], {Refuse(EINTR)});
      WithoutFirst(script, {Refuse(EINTR)});
      ReadingFirst(script, nonblocking, chunk, n, available);
      if script[0] == Refuse(EINTR) {
        ReadingFailsIff(script[1..], nonblocking, chunk, n, available);
      } else if !script[0].Move? {
        assert moving == [];
        FailsAtOnce(chunk, n, available);
      } else {
        var m, ended := Moved(script[0].k, Min(n, chunk), available), |Leading(later)| < |later| || nonblocking;
        assert moving == [script[0]] + Leading(later) && |calls| == 1 + |later|;
        var rest := if m > 0 then Reading(script[1..], nonblocking, chunk, n - m, available - m) else Progress(0, false);
        if m > 0 { ReadingFailsIff(script[1..], nonblocking, chunk, n - m, available - m); }
        OneMore(script[0], Leading(later), ended, chunk, n, available, rest);
      }
    }
  }

  lemma ReadingFirst(script: seq<Outcome>, nonblocking: bool, chunk: nat, n: nat, available: nat)
    requires script != [] && n > 0
    ensures var p := Reading(script, nonblocking, chunk, n, available);
      var m := if script[0].Move? then Moved(script[0].k, Min(n, chunk), available) else 0;
      && (script[0] == Refuse(EINTR) ==> p == Reading(script[1..], nonblocking, chunk, n, available))
      && (script[0] != Refuse(EINTR) && !script[0].Move? ==> p == Progress(0, true))
      && (script[0].Move? && m == 0 ==> p == Progress(0, false))
      && (m > 0 ==> Leaves(p, m, Reading(script[1..], nonblocking, chunk, n - m, available - m)))
  {
  }

  lemma OverAtOnce(script: seq<Outcome>, nonblocking: bool, chunk: nat, n: nat, available: nat)
    requires script == [] || n == 0
    ensures var calls := Without(script, {Refuse(EINTR)});
      AmountsTo(Leading(calls), |Leading(calls)| < |calls| || nonblocking, chunk, n, available,
                Reading(script, nonblocking, chunk, n, available))
  {
  }

  lemma FailsAtOnce(chunk: nat, n: nat, available: nat)
    requires n > 0
    ensures AmountsTo([], true, chunk, n, available, Progress(0, true))
  {
  }

  // Writing n bytes: a call that writes nothing and leaves errno at EINTR is repeated
  // as well.
  function Writing(script: seq<Outcome>, nonblocking: bool, n: nat): Progress {
    if n == 0 then Progress(0, false)
    else if script == [] then Progress(if nonblocking then 0 else n, nonblocking)
    else if !script[0].Move? then
      if Code(script[0]) == EINTR then Writing(script[1..], nonblocking, n) else Progress(0, true)
    else
      var m := Moved(script[0].k, n, n);
      var rest := Writing(script[1..], nonblocking, n - m);
      Progress(m + rest.count, rest.failed)
  }

  lemma {:induction false} WritingAll(script: seq<Outcome>, nonblocking: bool, n: nat)
    ensures var p := Writing(script, nonblocking, n); if p.failed then p.count < n else p.count == n
    ensures Benign(script) && !nonblocking ==> !Writing(script, nonblocking, n).failed
    decreases |script|
  {
    if n > 0 && script != [] {
      WritingAll(script[1..], nonblocking, if script[0].Move? then n - Moved(script[0].k, n, n) else n);
    }
  }

  lemma {:induction false} WritingFailsIff(script: seq<Outcome>, nonblocking: bool, chunk: nat, n: nat)
    requires n <= chunk
    ensures var calls := Without(script, {Refuse(EINTR), Idle(EINTR)});
      var moving, p := Leading(calls), Writing(script, nonblocking, n);
      && (p.failed <==> (|moving| < |calls| || nonblocking) && Total(moving, chunk) < n)
      && (p.failed ==> p.count == Total(moving, chunk))
    decreases |script|
  {
    if script != [] && n > 0 {
      var drop := {Refuse(EINTR), Idle(EINTR)};
      WithoutFirst(script, drop);
      if script[0].Move? {
        assert Leading(Without(script, drop))[1..] == Leading(Without(script[1..], drop));
        WritingFailsIff(script[1..], nonblocking, chunk, n - Moved(script[0].k, n, n));
      } else if script[0] in drop {
        WritingFailsIff(script[1..], nonblocking, chunk, n);
      }
    }
  }
}

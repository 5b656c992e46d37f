// hw6-concurrency/sbuf.c in its own form: a record with an array, two indices
// and three semaphores that the threads update in place.
module SbufObject {
  import opened SbufMachine

  class SharedBuffer {
    var buf: array<int>
    var n: int
    var front: int
    var rear: int
    var mutex: int
    var slots: int
    var items: int
    var threads: seq<Thread>
    ghost var stored: seq<int>
    ghost var taken: seq<int>

    ghost function View(): State
      reads this, buf
    {
      State(n, buf[..], front, rear, mutex, slots, items, threads, stored, taken)
    }

    constructor (capacity: int, programs: seq<seq<Op>>)
      requires 1 <= capacity
      ensures fresh(buf) && View() == Init(capacity, programs)
    {
      buf := new int[capacity](_ => 0);
      n := capacity;
      front, rear := 0, 0;
      mutex, slots, items := 1, capacity, 0;
      threads := seq(|programs|, i requires 0 <= i < |programs| => Start(programs[i]));
      stored, taken := [], [];
      new;
      assert buf[..] == seq(capacity, _ => 0);
    }

    // Thread t executes its next statement.
    method Advance(t: nat)
      requires Shape(View()) && Enabled(View(), t)
      modifies this, buf
      ensures buf == old(buf) && View() == Step(old(View()), t)
    {
      var th := threads[t];
      match th.pc {
        case Outside =>
          if th.todo[0].Insert? {
            slots := slots - 1;
            th := th.(pc := InsLock, todo := th.todo[1..], item := th.todo[0].item);
          } else {
            items := items - 1;
            th := th.(pc := RemLock, todo := th.todo[1..]);
          }
        case InsLock =>
          mutex := mutex - 1;
          th := th.(pc := InsLoad);
        case InsLoad =>
          th := th.(pc := InsBump, reg := rear + 1);
        case InsBump =>
          rear := th.reg;
          th := th.(pc := InsStore);
        case InsStore =>
          buf[th.reg % n] := th.item;
          stored := stored + [th.item];
          th := th.(pc := InsUnlock);
        case InsUnlock =>
          mutex := mutex + 1;
          th := th.(pc := InsPost);
        case InsPost =>
          items := items + 1;
          th := th.(pc := Outside);
        case RemLock =>
          mutex := mutex - 1;
          th := th.(pc := RemLoad);
        case RemLoad =>
          th := th.(pc := RemBump, reg := front + 1);
        case RemBump =>
          front := th.reg;
          th := th.(pc := RemRead);
        case RemRead =>
          th := th.(pc := RemUnlock, item := buf[th.reg % n]);
          taken := taken + [th.item];
        case RemUnlock =>
          mutex := mutex + 1;
          th := th.(pc := RemPost);
        case RemPost =>
          slots := slots + 1;
          th := th.(pc := Outside, got := th.got + [th.item]);
      }
      threads := threads[t := th];
    }
  }
}

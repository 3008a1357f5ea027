/** Queue: the first-in first-out list of blocked threads, linked through the threads themselves. */
module WaitQueue {
  import opened Lists
  import opened ReadyQueue

  class Queue {
    var first: Tcb?
    var last: Tcb?
    ghost var list: seq<Tcb>

    ghost predicate Valid()
      reads this, list
    {
      && first == Nth(list, 0) && last == Nth(list, |list| - 1)
      && (forall i {:trigger list[i].next} :: 0 <= i < |list| ==> list[i].next == Nth(list, i + 1))
      && AllDiffer(list)
    }

    constructor ()
      ensures Valid() && list == []
    {
      first, last, list := null, null, [];
    }

    method Add(t: Tcb)
      requires Valid() && t !in list
      modifies this, list, t
      ensures Valid() && list == old(list) + [t]
    {
      t.next := null;
      if first == null {
        first := t;
      } else {
        last.next := t;
      }
      last := t;
      list := list + [t];
    }

    method Remove() returns (it: Tcb?)
      requires Valid()
      modifies this
      ensures Valid() && it == Nth(old(list), 0)
      ensures list == if it == null then [] else old(list)[1..]
    {
      if first == null { return null; }
      it := first;
      first := it.next;
      if first == null {
        last := null;
      }
      list := list[1..];
    }
  }
}

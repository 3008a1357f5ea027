/** The semaphore object: a count and a linked queue of blocked threads, updated in place. */
module BlockingSemaphore {
  import opened ReadyQueue
  import opened WaitQueue
  import Semaphore

  function Ids(list: seq<Tcb>): (r: seq<int>)
    ensures |r| == |list| && forall i :: 0 <= i < |r| ==> r[i] == list[i].id
  {
    seq(|list|, i requires 0 <= i < |list| => list[i].id)
  }

  class Counter {
    var count: nat
    const waiting: Queue

    ghost predicate Valid()
      reads this, waiting, waiting.list
    {
      waiting.Valid() && Semaphore.NoIdleUnit(View())
    }

    ghost function View(): Semaphore.Sem
      reads this, waiting
    {
      Semaphore.Sem(count, Ids(waiting.list))
    }

    constructor (count: nat)
      ensures Valid() && View() == Semaphore.Sem(count, []) && fresh(waiting)
    {
      this.count := count;
      waiting := new Queue();
    }

    /** down by thread `t`; `blocked` says that it was queued instead of going on. */
    method Down(t: Tcb) returns (blocked: bool)
      requires Valid() && t !in waiting.list
      modifies this, waiting, waiting.list, t
      ensures Valid() && View() == Semaphore.Down(old(View()), t.id)
      ensures blocked <==> !Semaphore.Available(old(View()))
      ensures waiting.list == old(waiting.list) + if blocked then [t] else []
    {
      if count > 0 {
        count := count - 1;
        return false;
      }
      waiting.Add(t);
      blocked := true;
    }

    /** up; `next` is the thread to be scheduled, if one was waiting. */
    method Up() returns (next: Tcb?)
      requires Valid()
      modifies this, waiting
      ensures Valid() && View() == Semaphore.Up(old(View()))
      ensures next == null <==> old(View()).waiting == []
      ensures next != null ==> next == old(waiting.list)[0] && waiting.list == old(waiting.list)[1..]
    {
      next := waiting.Remove();
      if next == null {
        count := count + 1;
      }
    }
  }
}

/** PriorityQueue: the linked list that realises the order. */
module ReadyQueue {
  import opened Lists
  import opened ReadyOrder

  /** A thread; `next` is the one link that whichever queue holds it uses. */
  class Tcb {
    const id: int
    const job: Job
    var next: Tcb?

    constructor (id: int, job: Job)
      ensures this.id == id && this.job == job
    {
      this.id, this.job := id, job;
      next := null;
    }
  }

  class PriorityQueue {
    var first: Tcb?
    ghost var list: seq<Tcb>

    ghost predicate Valid()
      reads this, list
    {
      && first == Nth(list, 0)
      && (forall i {:trigger list[i].next} :: 0 <= i < |list| ==> list[i].next == Nth(list, i + 1))
      && AllDiffer(list)
    }

    ghost function Contents(): seq<Job>
      reads this
    {
      Jobs(list)
    }

    constructor ()
      ensures Valid() && list == [] && Contents() == []
    {
      first, list := null, [];
    }

    /** Hangs `t` between `prev` and `temp`, the nodes at positions k - 1 and k. */
    method Splice(prev: Tcb, t: Tcb, temp: Tcb?, ghost k: int)
      requires Valid() && t !in list && 0 < k <= |list| && prev == list[k - 1] && temp == Nth(list, k)
      modifies this`list, prev`next, t`next
      ensures Valid() && list == old(list)[..k] + [t] + old(list)[k..]
    {
      prev.next := t;
      t.next := temp;
      list := list[..k] + [t] + list[k..];
    }

    /** Hangs `t` in front of everyone. */
    method PushFront(t: Tcb)
      requires Valid() && t !in list
      modifies this, t`next
      ensures Valid() && list == old(list)[..0] + [t] + old(list)[0..]
    {
      t.next := first;
      first := t;
      list := list[..0] + [t] + list[0..];
    }

    /** The traversal: stops at the first thread with a greater run time, remembering the one before it. */
    method FindSpot(t: Tcb) returns (prev: Tcb, temp: Tcb?)
      requires Valid() && first != null && first.job.runTime <= t.job.runTime
      ensures var k := Position(Keys(Contents()), t.job.runTime);
              0 < k && prev == list[k - 1] && temp == Nth(list, k)
    {
      prev, temp := first, first;
      ghost var k := 0;
      while temp != null && temp.job.runTime <= t.job.runTime
        invariant 0 <= k <= |list| && temp == Nth(list, k)
        invariant 0 < k ==> prev == list[k - 1]
        invariant forall i :: 0 <= i < k ==> list[i].job.runTime <= t.job.runTime
        decreases |list| - k
      {
        prev := temp;
        temp := temp.next;
        k := k + 1;
      }
      PositionIs(Keys(Contents()), t.job.runTime, k);
    }

    method Add(t: Tcb)
      requires Valid() && t !in list
      modifies this, list, t
      ensures Valid() && Contents() == Insert(old(Contents()), t.job)
      ensures multiset(list) == multiset(old(list)) + multiset{t}
    {
      ghost var l := list;
      if first == null || t.job.runTime < first.job.runTime {
        PositionIs(Keys(Jobs(l)), t.job.runTime, 0);
        SpliceJobs(l, 0, t);
        PushFront(t);
        return;
      }
      ghost var k := Position(Keys(Contents()), t.job.runTime);
      var prev, temp := FindSpot(t);
      SpliceJobs(l, k, t);
      Splice(prev, t, temp, k);
    }

    method Remove() returns (t: Tcb?)
      requires Valid()
      modifies this
      ensures Valid()
      ensures old(list) == [] ==> t == null && list == []
      ensures old(list) != [] ==> t == old(list)[0] && list == old(list)[1..] && Contents() == old(Contents())[1..]
    {
      if first == null { return null; }
      t := first;
      first := t.next;
      list := list[1..];
    }
  }

  /** The k-th node of a list, null outside it. */
  function Nth(list: seq<Tcb>, k: int): Tcb? { if 0 <= k < |list| then list[k] else null }

  function Jobs(list: seq<Tcb>): (r: seq<Job>)
    ensures |r| == |list| && forall i :: 0 <= i < |r| ==> r[i] == list[i].job
  {
    seq(|list|, i requires 0 <= i < |list| => list[i].job)
  }

  lemma SpliceJobs(l: seq<Tcb>, k: int, t: Tcb)
    requires 0 <= k <= |l|
    ensures Jobs(l[..k] + [t] + l[k..]) == Jobs(l)[..k] + [t.job] + Jobs(l)[k..]
    ensures multiset(l[..k] + [t] + l[k..]) == multiset(l) + multiset{t}
  {
    assert l == l[..k] + l[k..];
  }

  lemma PositionIs(keys: seq<int>, k: int, p: int)
    requires 0 <= p <= |keys| && (forall i :: 0 <= i < p ==> keys[i] <= k) && (p < |keys| ==> k < keys[p])
    ensures Position(keys, k) == p
  {
  }
}

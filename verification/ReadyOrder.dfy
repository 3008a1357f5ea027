/** The order of the ready queue, as values: by run time, first come first served among equals. */
module ReadyOrder {

  /** A queued thread: its process's run time and its arrival number. */
  datatype Job = Job(runTime: int, stamp: int)

  /** Where the traversal stops: before the first key greater than `k`. */
  function Position(keys: seq<int>, k: int): (p: int)
    ensures 0 <= p <= |keys|
    ensures forall i :: 0 <= i < p ==> keys[i] <= k
    ensures p < |keys| ==> k < keys[p]
  {
    if keys == [] || k < keys[0] then 0 else 1 + Position(keys[1..], k)
  }

  function Keys(l: seq<Job>): (r: seq<int>)
    ensures |r| == |l| && forall i :: 0 <= i < |l| ==> r[i] == l[i].runTime
  {
    seq(|l|, i requires 0 <= i < |l| => l[i].runTime)
  }

  function Place(l: seq<Job>, x: Job): int { Position(Keys(l), x.runTime) }

  function Insert(l: seq<Job>, x: Job): seq<Job> { l[..Place(l, x)] + [x] + l[Place(l, x)..] }

  predicate Less(x: Job, y: Job) { x.runTime < y.runTime || (x.runTime == y.runTime && x.stamp < y.stamp) }

  /** The specification: strictly ordered by run time, then arrival. */
  ghost predicate Ordered(l: seq<Job>) {
    forall i, j {:trigger Less(l[i], l[j])} :: 0 <= i < j < |l| ==> Less(l[i], l[j])
  }

  lemma InsertAt(l: seq<Job>, x: Job, i: int)
    requires 0 <= i <= |l|
    ensures Insert(l, x)[i] == if i < Place(l, x) then l[i] else if i == Place(l, x) then x else l[i - 1]
  {
  }

  /** Everyone before the newcomer's place goes before it, everyone after goes after. */
  lemma PlaceSplits(l: seq<Job>, x: Job, i: int)
    requires Ordered(l) && 0 <= i < |l| && l[i].stamp < x.stamp
    ensures if i < Place(l, x) then Less(l[i], x) else Less(x, l[i])
  {
    var p := Place(l, x);
    assert i <= p || Less(l[p], l[i]);
  }

  /** Adding a newcomer keeps the order: everyone with the same run time stays in front of it. */
  lemma AddKeepsOrder(l: seq<Job>, x: Job)
    requires Ordered(l) && forall i :: 0 <= i < |l| ==> l[i].stamp < x.stamp
    ensures Ordered(Insert(l, x))
    ensures multiset(Insert(l, x)) == multiset(l) + multiset{x}
  {
    var p, m := Place(l, x), Insert(l, x);
    forall i, j | 0 <= i < j < |m| ensures Less(m[i], m[j]) {
      InsertAt(l, x, i);
      InsertAt(l, x, j);
      if i == p { PlaceSplits(l, x, j - 1); }
      else if j == p { PlaceSplits(l, x, i); }
    }
    assert l == l[..p] + l[p..];
  }

  /** There is only one ordered arrangement, so the queue is the stable sort of what it holds. */
  lemma {:induction false} OrderedIsUnique(l: seq<Job>, l': seq<Job>)
    requires Ordered(l) && Ordered(l') && multiset(l) == multiset(l')
    ensures l == l'
  {
    SizeOfMultiset(l, l');
    if l != [] {
      HeadIsLeast(l, l'[0]);
      HeadIsLeast(l', l[0]);
      TailMultiset(l);
      TailMultiset(l');
      OrderedIsUnique(l[1..], l'[1..]);
      assert l == [l[0]] + l[1..] && l' == [l[0]] + l'[1..];
    }
  }

  lemma SizeOfMultiset(l: seq<Job>, l': seq<Job>)
    requires multiset(l) == multiset(l')
    ensures |l| == |l'| && (l != [] ==> l[0] in multiset(l') && l'[0] in multiset(l))
  {
    assert |multiset(l)| == |l| && |multiset(l')| == |l'|;
  }

  lemma TailMultiset(l: seq<Job>)
    requires l != []
    ensures multiset(l[1..]) == multiset(l) - multiset{l[0]}
  {
    assert l == [l[0]] + l[1..];
  }

  /** The head has the least run time, and came first among those with it. */
  lemma HeadIsLeast(l: seq<Job>, x: Job)
    requires Ordered(l) && x in multiset(l)
    ensures l != [] && (x == l[0] || Less(l[0], x))
  {
    var i :| 0 <= i < |l| && l[i] == x;
  }

  datatype Op = Add(runTime: int) | Remove

  /** The queue after a run of operations; arrivals are numbered by their position in the run. */
  function Replay(ops: seq<Op>): seq<Job> {
    if ops == [] then [] else
      var l := Replay(ops[..|ops| - 1]);
      match ops[|ops| - 1]
      case Add(k) => Insert(l, Job(k, |ops| - 1))
      case Remove => if l == [] then [] else l[1..]
  }

  /** After any run the queue is ordered. */
  lemma {:induction false} RunIsOrdered(ops: seq<Op>)
    ensures Ordered(Replay(ops))
    ensures forall i :: 0 <= i < |Replay(ops)| ==> 0 <= Replay(ops)[i].stamp < |ops|
  {
    if ops != [] {
      RunIsOrdered(ops[..|ops| - 1]);
      var l := Replay(ops[..|ops| - 1]);
      match ops[|ops| - 1]
      case Add(k) =>
        var x := Job(k, |ops| - 1);
        AddKeepsOrder(l, x);
        forall i | 0 <= i <= |l| ensures 0 <= Insert(l, x)[i].stamp < |ops| { InsertAt(l, x, i); }
      case Remove =>
    }
  }

  /** The jobs added in a run, each with its arrival number. */
  function Added(ops: seq<Op>): multiset<Job> {
    if ops == [] then multiset{} else
      var k := |ops| - 1;
      Added(ops[..k]) + match ops[k] case Add(runTime) => multiset{Job(runTime, k)} case Remove => multiset{}
  }

  /** The jobs removed in a run, in order. */
  function Removed(ops: seq<Op>): seq<Job> {
    if ops == [] then [] else
      var l := Replay(ops[..|ops| - 1]);
      Removed(ops[..|ops| - 1]) + if ops[|ops| - 1] == Remove && l != [] then [l[0]] else []
  }

  /** Nothing is lost or duplicated: what is queued and what was removed is exactly what was added. */
  lemma {:induction false} NothingLost(ops: seq<Op>)
    ensures multiset(Replay(ops)) + multiset(Removed(ops)) == Added(ops)
  {
    if ops != [] {
      var front := ops[..|ops| - 1];
      NothingLost(front);
      RunIsOrdered(front);
      var l := Replay(front);
      match ops[|ops| - 1]
      case Add(k) => AddCounts(l, Job(k, |ops| - 1), multiset(Removed(front)), Added(front));
      case Remove => RemoveCounts(l, Removed(front));
    }
  }

  lemma AddCounts(l: seq<Job>, x: Job, gone: multiset<Job>, all: multiset<Job>)
    requires Ordered(l) && (forall i :: 0 <= i < |l| ==> l[i].stamp < x.stamp) && multiset(l) + gone == all
    ensures multiset(Insert(l, x)) + gone == all + multiset{x}
  {
    AddKeepsOrder(l, x);
  }

  lemma RemoveCounts(l: seq<Job>, gone: seq<Job>)
    ensures l != [] ==> multiset(l[1..]) + multiset(gone + [l[0]]) == multiset(l) + multiset(gone)
  {
    if l != [] { assert l == [l[0]] + l[1..]; }
  }

  /** What a remove takes was the first of the least; removing from a queue that holds somebody always takes one. */
  lemma RemovesLeast(ops: seq<Op>, x: Job)
    requires x in multiset(Replay(ops))
    ensures Removed(ops + [Remove]) == Removed(ops) + [Replay(ops)[0]]
    ensures x == Replay(ops)[0] || Less(Replay(ops)[0], x)
  {
    RunIsOrdered(ops);
    HeadIsLeast(Replay(ops), x);
    assert (ops + [Remove])[..|ops|] == ops;
  }
}

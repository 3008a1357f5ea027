/** Counting and queueing threads by the program point they stand at. */
module Tally {
  import opened Lists

  type Tid = int

  /** How many threads stand at one of the points `f`. */
  function Num<P(==)>(at: map<Tid, P>, f: set<P>): nat {
    |set t | t in at && at[t] in f|
  }

  function One<P(==)>(p: P, f: set<P>): nat { if p in f then 1 else 0 }

  lemma NumAdd<P>(at: map<Tid, P>, t: Tid, p: P, f: set<P>)
    requires t !in at
    ensures Num(at[t := p], f) == Num(at, f) + One(p, f)
  {
    var at' := at[t := p];
    var a, b := set x | x in at && at[x] in f, set x | x in at' && at'[x] in f;
    if p in f { assert b == a + {t}; } else { assert b == a; }
  }

  lemma NumDrop<P>(at: map<Tid, P>, t: Tid, f: set<P>)
    requires t in at
    ensures Num(at - {t}, f) == Num(at, f) - One(at[t], f)
  {
    NumAdd(at - {t}, t, at[t], f);
    assert (at - {t})[t := at[t]] == at;
  }

  lemma NumMove<P>(at: map<Tid, P>, t: Tid, p: P, f: set<P>)
    requires t in at
    ensures Num(at[t := p], f) == Num(at, f) - One(at[t], f) + One(p, f)
  {
    NumDrop(at, t, f);
    NumAdd(at - {t}, t, p, f);
    assert (at - {t})[t := p] == at[t := p];
  }

  /** A thread standing at a point that counts makes the count positive. */
  lemma Present<P>(at: map<Tid, P>, t: Tid, f: set<P>)
    requires t in at && at[t] in f
    ensures 0 < Num(at, f)
  {
    NumDrop(at, t, f);
  }

  /** A positive count has a thread behind it. */
  lemma Witness<P>(at: map<Tid, P>, f: set<P>) returns (t: Tid)
    requires 0 < Num(at, f)
    ensures t in at && at[t] in f
  {
    t := Member(set x | x in at && at[x] in f);
  }

  lemma Member<T>(a: set<T>) returns (t: T)
    requires a != {}
    ensures t in a
  {
    t :| t in a;
  }

  /** Nobody at these points, nothing to count. */
  lemma NobodyThere<P>(at: map<Tid, P>, f: set<P>)
    requires forall t :: t in at ==> at[t] !in f
    ensures Num(at, f) == 0
  {
    if 0 < Num(at, f) {
      var t := Witness(at, f);
    }
  }

  lemma NumAtMost<P>(at: map<Tid, P>, f: set<P>)
    ensures Num(at, f) <= |at.Keys|
  {
    var a := set t | t in at && at[t] in f;
    assert at.Keys == a + (at.Keys - a);
  }

  // ---------------------------------------------------------------- wait queues

  /** The queue `w` holds exactly the threads standing at the points `f`, each once. */
  ghost predicate Waits<P>(at: map<Tid, P>, w: seq<Tid>, f: set<P>) {
    && (forall i {:trigger Waiter(at, w, f, i)} :: 0 <= i < |w| ==> Waiter(at, w, f, i))
    && (forall i, j {:trigger Differ(w, i, j)} :: 0 <= i < j < |w| ==> Differ(w, i, j))
    && (forall t {:trigger Listed(w, t)} :: t in at && at[t] in f ==> Listed(w, t))
  }

  ghost predicate Waiter<P>(at: map<Tid, P>, w: seq<Tid>, f: set<P>, i: int)
    requires 0 <= i < |w|
  {
    w[i] in at && at[w[i]] in f
  }

  ghost predicate Listed(w: seq<Tid>, t: Tid) { t in w }

  /** A thread that was not waiting here and still is not. */
  lemma WaitsKept<P>(at: map<Tid, P>, w: seq<Tid>, f: set<P>, t: Tid, p: P)
    requires Waits(at, w, f) && (t in at ==> at[t] !in f) && p !in f
    ensures Waits(at[t := p], w, f)
  {
    var at' := at[t := p];
    forall i | 0 <= i < |w| ensures Waiter(at', w, f, i) { assert Waiter(at, w, f, i); }
    forall x | x in at' && at'[x] in f ensures Listed(w, x) { assert x in at; }
  }

  lemma WaitsDropped<P>(at: map<Tid, P>, w: seq<Tid>, f: set<P>, t: Tid)
    requires Waits(at, w, f) && t in at && at[t] !in f
    ensures Waits(at - {t}, w, f)
  {
    var at' := at - {t};
    forall i | 0 <= i < |w| ensures Waiter(at', w, f, i) { assert Waiter(at, w, f, i); }
    forall x | x in at' && at'[x] in f ensures Listed(w, x) { assert x in at; }
  }

  lemma WaitsGrow<P>(at: map<Tid, P>, w: seq<Tid>, f: set<P>, t: Tid, p: P)
    requires Waits(at, w, f) && (t in at ==> at[t] !in f) && p in f
    ensures Waits(at[t := p], w + [t], f)
  {
    var at', w' := at[t := p], w + [t];
    assert w'[|w|] == t;
    forall i | 0 <= i < |w'| ensures Waiter(at', w', f, i) { assert i < |w| ==> Waiter(at, w, f, i); }
    forall i, j | 0 <= i < j < |w'| ensures Differ(w', i, j) {
      assert Waiter(at, w, f, i);
      assert j < |w| ==> Differ(w, i, j);
    }
    forall x | x in at' && at'[x] in f ensures Listed(w', x) {
      assert x != t ==> Listed(w, x);
    }
  }

  lemma WaitsShrink<P>(at: map<Tid, P>, w: seq<Tid>, f: set<P>, p: P)
    requires Waits(at, w, f) && w != [] && p !in f
    ensures w[0] in at && at[w[0]] in f && Waits(at[w[0] := p], w[1..], f)
  {
    assert Waiter(at, w, f, 0);
    var at', w' := at[w[0] := p], w[1..];
    forall i | 0 <= i < |w'| ensures Waiter(at', w', f, i) { assert Waiter(at, w, f, i + 1) && Differ(w, 0, i + 1); }
    forall i, j | 0 <= i < j < |w'| ensures Differ(w', i, j) { assert Differ(w, i + 1, j + 1); }
    forall x | x in at' && at'[x] in f ensures Listed(w', x) {
      assert Listed(w, x);
      var i :| 0 <= i < |w| && w[i] == x;
      assert w'[i - 1] == x;
    }
  }
}

/** ReusableBarrier::sync over a Mesa condition variable, under any interleaving.

    Condition::wait releases the lock before the thread is queued, so a notify may fall
    in between; the condition's epoch, remembered by the waiter, is what catches it. */
module ReusableBarrier {
  import opened Lists
  import opened Bytes

  type Tid = int

  datatype Pc =
    | Parking(gen: int, seen: int)   // lock released, not yet queued; `seen` is the remembered condition epoch
    | Waiting(gen: int)              // in the condition's queue
    | Woken(gen: int)                // scheduled, about to take the lock again

  datatype State = State(
    initial: int, count: int, epoch: int,
    condEpoch: int, queue: seq<Tid>,
    at: map<Tid, Pc>,
    entries: int,                    // calls of sync so far
    arrivals: seq<int>               // calls of sync so far, by generation
  )

  const ALL: int := 0xFFFF_FFFF_FFFF_FFFF

  /** notify(limit): how many waiters are scheduled. */
  function Notified(queue: seq<Tid>, limit: int): int
    requires 0 <= limit
  {
    if |queue| < limit then |queue| else limit
  }

  function WakeAll(at: map<Tid, Pc>, woken: seq<Tid>): map<Tid, Pc> {
    map t | t in at :: if t in woken then Woken(at[t].gen) else at[t]
  }

  // ---------------------------------------------------------------- steps

  datatype Event = Enter(t: Tid) | Park(t: Tid) | Relock(t: Tid)

  predicate Enabled(s: State, e: Event) {
    match e
    case Enter(t) => t !in s.at
    case Park(t) => t in s.at && s.at[t].Parking?
    case Relock(t) => t in s.at && s.at[t].Woken?
  }

  /** The last arrival: open the next generation and notify everyone. */
  function Release(s: State): State
    requires 0 <= s.epoch < |s.arrivals|
  {
    var k := Notified(s.queue, ALL);
    s.(count := s.initial, epoch := s.epoch + 1, condEpoch := s.condEpoch + 1,
       queue := s.queue[k..], at := WakeAll(s.at, s.queue[..k]),
       entries := s.entries + 1, arrivals := s.arrivals[s.epoch := s.arrivals[s.epoch] + 1] + [0])
  }

  function Apply(s: State, e: Event): State
    requires Enabled(s, e) && 0 <= s.epoch < |s.arrivals|
  {
    match e
    case Enter(t) =>
      if s.count - 1 == 0 then Release(s)
      else s.(count := s.count - 1, at := s.at[t := Parking(s.epoch, s.condEpoch)],
              entries := s.entries + 1, arrivals := s.arrivals[s.epoch := s.arrivals[s.epoch] + 1])
    case Park(t) =>
      var Parking(gen, seen) := s.at[t];
      if s.condEpoch == seen then s.(queue := s.queue + [t], at := s.at[t := Waiting(gen)])
      else s.(at := s.at[t := Woken(gen)])
    case Relock(t) =>
      var gen := s.at[t].gen;
      if s.epoch <= gen then s.(at := s.at[t := Parking(gen, s.condEpoch)])
      else s.(at := s.at - {t})
  }

  /** The thread returns from sync in this step, out of generation `gen`. */
  predicate Leaves(s: State, e: Event, gen: int) {
    match e
    case Enter(t) => s.count - 1 == 0 && gen == s.epoch
    case Park(t) => false
    case Relock(t) => t in s.at && s.epoch > s.at[t].gen && gen == s.at[t].gen
  }

  // ---------------------------------------------------------------- invariant

  /** A thread inside sync: unless it was woken, its generation is still open or it will see that it closed. */
  ghost predicate ThreadOk(s: State, t: Tid)
    requires t in s.at
  {
    match s.at[t]
    case Parking(gen, seen) => 0 <= gen <= s.epoch && seen == gen
    case Waiting(gen) => gen == s.epoch && t in s.queue
    case Woken(gen) => 0 <= gen < s.epoch
  }

  ghost predicate QueuedOk(s: State, i: int)
    requires 0 <= i < |s.queue|
  {
    s.queue[i] in s.at && s.at[s.queue[i]].Waiting?
  }

  /** The threads inside sync that belong to generation `gen` and have not been woken out of it. */
  function Inside(at: map<Tid, Pc>, gen: int): set<Tid> { set t | t in at && at[t].gen == gen }

  ghost predicate Counters(s: State) {
    && 1 <= s.count <= s.initial < WORD_MAX && 0 <= s.epoch && s.condEpoch == s.epoch
    && s.entries == s.initial * s.epoch + (s.initial - s.count)
    && |s.arrivals| == s.epoch + 1 && s.arrivals[s.epoch] == s.initial - s.count
    && forall g :: 0 <= g < s.epoch ==> s.arrivals[g] == s.initial
  }

  ghost predicate Inv(s: State) {
    && Counters(s)
    && (forall t {:trigger ThreadOk(s, t)} :: t in s.at ==> ThreadOk(s, t))
    && (forall i {:trigger QueuedOk(s, i)} :: 0 <= i < |s.queue| ==> QueuedOk(s, i))
    && (forall i, j {:trigger Differ(s.queue, i, j)} :: 0 <= i < j < |s.queue| ==> Differ(s.queue, i, j))
    && |Inside(s.at, s.epoch)| == s.initial - s.count
  }

  // ---------------------------------------------------------------- preservation

  /** The condition's queue never outgrows the open generation, so notifyAll empties it. */
  lemma QueueFits(s: State)
    requires Inv(s)
    ensures |s.queue| <= s.initial - s.count && Notified(s.queue, ALL) == |s.queue|
  {
    var m := set i | 0 <= i < |s.queue| :: s.queue[i];
    SetOfQueue(s.queue);
    forall t | t in m ensures t in Inside(s.at, s.epoch) {
      var i :| 0 <= i < |s.queue| && s.queue[i] == t;
      assert QueuedOk(s, i) && ThreadOk(s, t);
    }
    assert Inside(s.at, s.epoch) == m + (Inside(s.at, s.epoch) - m);
  }

  lemma {:induction false} SetOfQueue(q: seq<Tid>)
    requires forall i, j {:trigger Differ(q, i, j)} :: 0 <= i < j < |q| ==> Differ(q, i, j)
    ensures |set i | 0 <= i < |q| :: q[i]| == |q|
  {
    var m := set i | 0 <= i < |q| :: q[i];
    if q != [] {
      var r := q[..|q| - 1];
      forall i, j | 0 <= i < j < |r| ensures Differ(r, i, j) { assert Differ(q, i, j); }
      SetOfQueue(r);
      var m' := set i | 0 <= i < |r| :: r[i];
      forall i | 0 <= i < |r| ensures r[i] != q[|q| - 1] { assert Differ(q, i, |q| - 1); }
      assert m == m' + {q[|q| - 1]};
    }
  }

  lemma EnterKeeps(s: State, t: Tid)
    requires Inv(s) && Enabled(s, Enter(t)) && s.count > 1
    ensures Inv(Apply(s, Enter(t)))
  {
    var s' := Apply(s, Enter(t));
    forall x | x in s'.at ensures ThreadOk(s', x) { assert x != t ==> ThreadOk(s, x); }
    forall i | 0 <= i < |s'.queue| ensures QueuedOk(s', i) { assert QueuedOk(s, i); }
    assert Inside(s'.at, s.epoch) == Inside(s.at, s.epoch) + {t};
  }

  lemma ReleaseKeeps(s: State)
    requires Inv(s) && s.count == 1
    ensures Inv(Release(s)) && Release(s).queue == []
  {
    QueueFits(s);
    var s' := Release(s);
    assert s.queue[..|s.queue|] == s.queue;
    forall x | x in s'.at ensures ThreadOk(s', x) { assert ThreadOk(s, x); }
    forall x | x in s'.at ensures x !in Inside(s'.at, s'.epoch) { assert ThreadOk(s, x); }
    assert Inside(s'.at, s'.epoch) == {};
  }

  lemma ParkKeeps(s: State, t: Tid)
    requires Inv(s) && Enabled(s, Park(t))
    ensures Inv(Apply(s, Park(t)))
  {
    var s' := Apply(s, Park(t));
    assert ThreadOk(s, t);
    forall x | x in s'.at ensures ThreadOk(s', x) {
      assert ThreadOk(s, x);
      assert s'.queue != s.queue ==> s'.queue[|s.queue|] == t;
    }
    forall i | 0 <= i < |s'.queue| ensures QueuedOk(s', i) { assert i < |s.queue| ==> QueuedOk(s, i); }
    forall i, j | 0 <= i < j < |s'.queue| ensures Differ(s'.queue, i, j) {
      assert QueuedOk(s, i);
      assert j < |s.queue| ==> Differ(s.queue, i, j);
    }
    assert Inside(s'.at, s.epoch) == Inside(s.at, s.epoch);
  }

  /** A woken thread always finds its generation closed: the wait loop never goes round again. */
  lemma RelockKeeps(s: State, t: Tid)
    requires Inv(s) && Enabled(s, Relock(t))
    ensures Inv(Apply(s, Relock(t))) && Leaves(s, Relock(t), s.at[t].gen)
    ensures t !in Apply(s, Relock(t)).at
  {
    var s' := Apply(s, Relock(t));
    assert ThreadOk(s, t);
    forall x | x in s'.at ensures ThreadOk(s', x) { assert ThreadOk(s, x); }
    forall i | 0 <= i < |s'.queue| ensures QueuedOk(s', i) { assert QueuedOk(s, i); }
    assert Inside(s'.at, s.epoch) == Inside(s.at, s.epoch);
  }

  lemma StepKeeps(s: State, e: Event)
    requires Inv(s) && Enabled(s, e)
    ensures Inv(Apply(s, e))
  {
    match e
    case Enter(t) => if s.count == 1 { ReleaseKeeps(s); } else { EnterKeeps(s, t); }
    case Park(t) => ParkKeeps(s, t);
    case Relock(t) => RelockKeeps(s, t);
  }

  // ---------------------------------------------------------------- runs

  function Init(initial: int): State { State(initial, initial, 0, 0, [], map[], 0, [0]) }

  ghost predicate Run(states: seq<State>, initial: int, events: seq<Event>) {
    && |states| == |events| + 1 && states[0] == Init(initial)
    && forall i {:trigger events[i]} :: 0 <= i < |events| ==>
         && Enabled(states[i], events[i])
         && (0 <= states[i].epoch < |states[i].arrivals| ==> states[i + 1] == Apply(states[i], events[i]))
  }

  lemma {:induction false} RunKeeps(states: seq<State>, initial: int, events: seq<Event>, i: int)
    requires 1 <= initial < WORD_MAX && Run(states, initial, events) && 0 <= i <= |events|
    ensures Inv(states[i])
    decreases i
  {
    if i == 0 {
      assert Inside(states[0].at, 0) == {};
    } else {
      RunKeeps(states, initial, events, i - 1);
      assert Enabled(states[i - 1], events[i - 1]);
      StepKeeps(states[i - 1], events[i - 1]);
    }
  }

  /** Nobody leaves generation `gen` before all of its `initial` threads have entered it. */
  lemma NobodyLeavesEarly(s: State, e: Event, gen: int)
    requires Inv(s) && Enabled(s, e) && Leaves(s, e, gen)
    ensures 0 <= gen < |Apply(s, e).arrivals| && Apply(s, e).arrivals[gen] == s.initial
  {
    StepKeeps(s, e);
    match e
    case Enter(t) =>
    case Park(t) =>
    case Relock(t) => assert ThreadOk(s, t);
  }

  /** No thread of a finished generation is ever in the condition's queue. */
  lemma QueueIsCurrent(s: State, t: Tid)
    requires Inv(s) && t in s.queue
    ensures t in s.at && s.at[t] == Waiting(s.epoch)
  {
    var i :| 0 <= i < |s.queue| && s.queue[i] == t;
    assert QueuedOk(s, i) && ThreadOk(s, t);
  }

  /** When no thread inside can take a step, all of them wait for the same open generation, which lacks `count`
      arrivals. */
  lemma OnlyMissingArrivals(s: State)
    requires Inv(s) && forall t :: t in s.at ==> !Enabled(s, Park(t)) && !Enabled(s, Relock(t))
    ensures forall t :: t in s.at ==> s.at[t] == Waiting(s.epoch)
    ensures s.at.Keys == Inside(s.at, s.epoch) && |s.at.Keys| == s.initial - s.count
  {
    forall t | t in s.at ensures s.at[t] == Waiting(s.epoch) {
      assert ThreadOk(s, t) && !Enabled(s, Park(t)) && !Enabled(s, Relock(t));
    }
    assert s.at.Keys == Inside(s.at, s.epoch);
  }

  // ---------------------------------------------------------------- progress

  /** A thread leaves in a step exactly when it is not inside sync afterwards, and then out of its own generation. */
  lemma LeavesWhen(s: State, e: Event, gen: int)
    requires Inv(s) && Enabled(s, e)
    ensures Leaves(s, e, gen) <==> e.t !in Apply(s, e).at && gen == if e.Enter? then s.epoch else s.at[e.t].gen
  {
    if e.Relock? { assert ThreadOk(s, e.t); }
  }

  /** The wait loop: whoever gets the lock again while its generation is open waits once more, with the epoch of now. */
  lemma RecheckWaits(s: State, t: Tid)
    requires Enabled(s, Relock(t)) && 0 <= s.epoch < |s.arrivals| && s.epoch <= s.at[t].gen
    ensures Apply(s, Relock(t)) == s.(at := s.at[t := Parking(s.at[t].gen, s.condEpoch)])
    ensures !Leaves(s, Relock(t), s.at[t].gen)
  {
  }

  /** Own steps a thread still takes, at most; a waiting one takes none until it is woken. */
  function Weight(p: Pc): nat {
    match p
    case Parking(_, _) => 2
    case Waiting(_) => 1
    case Woken(_) => 1
  }

  /** A step of the thread itself brings it closer to its return, and nobody else's step moves it away or changes its
      generation. */
  lemma OwnStepsCount(s: State, e: Event, t: Tid)
    requires Inv(s) && Enabled(s, e) && t in s.at
    ensures var s' := Apply(s, e);
            && s.epoch <= s'.epoch
            && (t !in s'.at ==> e == Relock(t))
            && (t in s'.at ==> s'.at[t].gen == s.at[t].gen &&
                               Weight(s'.at[t]) <= Weight(s.at[t]) - if e.t == t then 1 else 0)
  {
    assert ThreadOk(s, t);
  }

  /** The steps thread `t` takes from the i-th state to the j-th. */
  function OwnSteps(events: seq<Event>, t: Tid, i: int, j: int): nat
    requires 0 <= i <= j <= |events|
    decreases j
  {
    if i == j then 0 else OwnSteps(events, t, i, j - 1) + if events[j - 1].t == t then 1 else 0
  }

  ghost predicate LeftSince(states: seq<State>, t: Tid, i: int, j: int)
    requires 0 <= i <= j < |states|
  {
    exists k :: i < k <= j && t !in states[k].at
  }

  /** In every run, a thread inside sync whose generation is closed has returned, or taken fewer than two steps of its
      own; and it is not waiting for anybody, so its next step is possible. */
  lemma {:induction false} ClosedReturns(states: seq<State>, initial: int, events: seq<Event>, i: int, j: int, t: Tid)
    requires 1 <= initial < WORD_MAX && Run(states, initial, events) && 0 <= i <= j <= |events|
    requires t in states[i].at && states[i].at[t].gen < states[i].epoch
    ensures LeftSince(states, t, i, j) ||
            (t in states[j].at && states[j].at[t].gen < states[j].epoch && !states[j].at[t].Waiting? &&
             OwnSteps(events, t, i, j) + Weight(states[j].at[t]) <= 2)
    decreases j - i
  {
    if i == j {
      RunKeeps(states, initial, events, i);
      assert ThreadOk(states[i], t);
    } else {
      ClosedReturns(states, initial, events, i, j - 1, t);
      RunKeeps(states, initial, events, j - 1);
      RunKeeps(states, initial, events, j);
      var s, e := states[j - 1], events[j - 1];
      assert Enabled(s, e) && states[j] == Apply(s, e);
      if LeftSince(states, t, i, j - 1) {
        var k :| i < k <= j - 1 && t !in states[k].at;
        assert LeftSince(states, t, i, j);
      } else {
        OwnStepsCount(s, e, t);
        assert t in states[j].at ==> ThreadOk(states[j], t);
      }
    }
  }
}

/** Threads lost in a dead hand: what happens when a thread is stopped between taking another thread off a
    queue and scheduling it. */
module SchedulerHands {
  import opened Scheduler
  import opened SchedulerSafety
  import opened SchedulerTurns

  /** A zombie: queued as one, taken by the reaper, or deleted. */
  ghost predicate Dead(s: State, u: Tid) {
    && u in s.place
    && match s.place[u]
       case Deleted => true
       case Queued(q) => q == Zombies
       case InHand(x) => x in s.hand && s.hand[x] == Reap(u)
       case _ => false
  }

  /** A dead thread holds something. */
  ghost predicate DeadHand(s: State, u: Tid) { u in s.hand && Dead(s, u) }

  /** This step makes a zombie of a thread that has something in hand. */
  predicate Strands(s: State, e: Event) {
    && e.Publish? && 0 <= e.c < |s.cores|
    && match s.cores[e.c].phase
       case Switched(prev, why) => why == Stop && !IsIdle(s, prev) && prev in s.hand
       case _ => false
  }

  // ---------------------------------------------------------------- one step

  /** The dead stay dead and keep what they hold, whatever any core does. */
  lemma DeadStays(s: State, e: Event, u: Tid)
    requires Inv(s) && Enabled(s, e) && Dead(s, u)
    ensures Dead(Apply(s, e), u)
    ensures u in s.hand ==> u in Apply(s, e).hand && Apply(s, e).hand[u] == s.hand[u]
  {
    var k := s.cores[e.c];
    assert CoreOk(s, e.c) && ThreadOk(s, u) && IdleOk(s, e.c);
    assert k.active in s.hand ==> HandOk(s, k.active);
    HeadsQueued(s, e);
  }

  /** The thread a step takes off a queue was in that queue only. */
  lemma HeadsQueued(s: State, e: Event)
    requires Inv(s) && Enabled(s, e)
    ensures (e.Pick? && Members(s, ReadyQ) != []) ==> At(s, Members(s, ReadyQ)[0], Queued(ReadyQ))
    ensures e.Take? ==> At(s, Members(s, Waiters(e.q))[0], Queued(Waiters(e.q)))
    ensures e.TakeZombie? ==> At(s, Members(s, Zombies)[0], Queued(Zombies))
  {
    if e.Pick? && Members(s, ReadyQ) != [] { assert QueueOk(s, ReadyQ, 0); }
    if e.Take? { assert QueueOk(s, Waiters(e.q), 0); }
    if e.TakeZombie? { assert QueueOk(s, Zombies, 0); }
  }

  /** A dead hand is an old one, or this step is the one that strands it. */
  lemma DeadHandFrom(s: State, e: Event, u: Tid)
    requires Inv(s) && Enabled(s, e) && DeadHand(Apply(s, e), u)
    ensures DeadHand(s, u) || Strands(s, e)
  {
    var k := s.cores[e.c];
    assert CoreOk(s, e.c) && IdleOk(s, e.c);
    assert k.active in s.hand ==> HandOk(s, k.active);
    assert u in s.hand ==> HandOk(s, u);
    HeadsQueued(s, e);
  }

  lemma StrandsLeaves(s: State, e: Event)
    requires Inv(s) && Enabled(s, e) && Strands(s, e)
    ensures DeadHand(Apply(s, e), s.cores[e.c].phase.prev)
  {
    assert CoreOk(s, e.c);
  }

  // ---------------------------------------------------------------- runs

  ghost predicate SomeStrands(states: seq<State>, events: seq<Event>, i: int)
    requires 0 <= i <= |events| == |states| - 1
  {
    exists j :: 0 <= j < i && Strands(states[j], events[j])
  }

  ghost predicate SomeDeadHand(s: State) { exists u :: DeadHand(s, u) }

  /** In every interleaving, some dead thread has something in hand exactly when an earlier step made a zombie of a
      thread that had. */
  lemma {:induction false} DeadHandWhen(states: seq<State>, events: seq<Event>, i: int)
    requires Run(states, events) && 0 <= i <= |events|
    ensures SomeDeadHand(states[i]) <==> SomeStrands(states, events, i)
    decreases i
  {
    if i == 0 {
      assert states[0].hand == map[];
    } else {
      var s, e, s' := states[i - 1], events[i - 1], states[i];
      RunKeeps(states, events, i - 1);
      assert Enabled(s, e);
      DeadHandWhen(states, events, i - 1);
      DeadHandStep(s, e);
      StrandsGrow(states, events, i);
    }
  }

  lemma StrandsGrow(states: seq<State>, events: seq<Event>, i: int)
    requires 0 < i <= |events| == |states| - 1
    ensures SomeStrands(states, events, i) <==>
            SomeStrands(states, events, i - 1) || Strands(states[i - 1], events[i - 1])
  {
  }

  lemma DeadHandStep(s: State, e: Event)
    requires Inv(s) && Enabled(s, e)
    ensures SomeDeadHand(Apply(s, e)) <==> SomeDeadHand(s) || Strands(s, e)
  {
    var s' := Apply(s, e);
    if SomeDeadHand(s') {
      var u :| DeadHand(s', u);
      DeadHandFrom(s, e, u);
    }
    if SomeDeadHand(s) {
      var u :| DeadHand(s, u);
      DeadStays(s, e, u);
      assert DeadHand(s', u);
    }
    if Strands(s, e) { StrandsLeaves(s, e); }
  }

  // ---------------------------------------------------------------- found or lost

  /** Core `k` runs `t`, uses its stack, or has it in transit. */
  predicate Engaged(k: Core, t: Tid) {
    || k.active == t || k.stack == t
    || match k.phase
       case Picked(next, _) => next == t
       case Installed(prev, _) => prev == t
       case Switched(prev, _) => prev == t
       case _ => false
  }

  /** Thread `t` is somewhere it can go on from: on a core, in transit, in a queue, or in a living thread's hand. */
  ghost predicate Found(s: State, t: Tid) {
    || (exists c :: 0 <= c < |s.cores| && Engaged(s.cores[c], t))
    || (exists q :: t in Members(s, q))
    || (exists u :: u in s.hand && s.hand[u].t == t && !Dead(s, u))
    || t in s.idle
  }

  ghost predicate Lost(s: State, t: Tid, u: Tid) { DeadHand(s, u) && s.hand[u].t == t }

  /** A thread in a dead hand is nowhere else. */
  lemma LostIsNotFound(s: State, t: Tid, u: Tid)
    requires Inv(s) && Lost(s, t, u)
    ensures !Found(s, t) && At(s, t, InHand(u))
  {
    assert HandOk(s, u);
    forall c | 0 <= c < |s.cores| ensures !Engaged(s.cores[c], t) { assert CoreOk(s, c); }
    forall q ensures t !in Members(s, q) {
      forall k | 0 <= k < |Members(s, q)| ensures Members(s, q)[k] != t { assert QueueOk(s, q, k); }
    }
    forall x | x in s.hand && s.hand[x].t == t ensures Dead(s, x) { assert HandOk(s, x); }
    forall z | 0 <= z < |s.idle| ensures s.idle[z] != t { assert IdleOk(s, z); }
  }

  /** Every thread not deleted is found, or some dead thread holds it. */
  lemma FoundOrLost(s: State, t: Tid)
    requires Inv(s) && t in s.place && s.place[t] != Deleted
    ensures Found(s, t) || exists u :: Lost(s, t, u)
  {
    assert ThreadOk(s, t);
    match s.place[t]
    case OnCore(c) => assert Engaged(s.cores[c], t);
    case Chosen(c) => assert Engaged(s.cores[c], t);
    case Leaving(c) => assert Engaged(s.cores[c], t);
    case InHand(u) => assert Lost(s, t, u) || !Dead(s, u);
    case _ =>
  }

  /** In every interleaving, every thread not deleted is on a core, in transit, in a queue, an idle thread or in the
      hand of a living thread, exactly when no thread was made a zombie with something in hand. */
  lemma NoThreadLostWhen(states: seq<State>, events: seq<Event>, i: int)
    requires Run(states, events) && 0 <= i <= |events|
    ensures var s := states[i];
            (forall t {:trigger Found(s, t)} :: t in s.place && s.place[t] != Deleted ==> Found(s, t)) <==>
            !SomeStrands(states, events, i)
  {
    var s := states[i];
    RunKeeps(states, events, i);
    DeadHandWhen(states, events, i);
    if SomeDeadHand(s) {
      var u :| DeadHand(s, u);
      assert Lost(s, s.hand[u].t, u);
      LostIsNotFound(s, s.hand[u].t, u);
    } else {
      forall t | t in s.place && s.place[t] != Deleted ensures Found(s, t) {
        FoundOrLost(s, t);
        assert forall u :: Lost(s, t, u) ==> DeadHand(s, u);
      }
    }
  }

  /** A lost thread stays lost in every continuation of the run. */
  lemma {:induction false} LostForever(states: seq<State>, events: seq<Event>, i: int, j: int, t: Tid, u: Tid)
    requires Run(states, events) && 0 <= i <= j <= |events| && Lost(states[i], t, u)
    ensures Lost(states[j], t, u) && At(states[j], t, InHand(u)) && !Found(states[j], t)
    decreases j - i
  {
    RunKeeps(states, events, j);
    if i < j {
      LostForever(states, events, i, j - 1, t, u);
      RunKeeps(states, events, j - 1);
      assert Enabled(states[j - 1], events[j - 1]);
      DeadStays(states[j - 1], events[j - 1], u);
    }
    LostIsNotFound(states[j], t, u);
  }

  // ---------------------------------------------------------------- at an input

  /** Threads 8 and 7 ready, in this order. */
  function BothReady(): State {
    Single(0, map[ReadyQ := [8, 7]], map[], {}, map[0 := OnCore(0), 8 := Queued(ReadyQ), 7 := Queued(ReadyQ)])
  }

  lemma BothReadyReachable()
    ensures Reachable(BothReady())
  {
    BootReachable();
    ReachSpawn(Boot(), 8, 0);
    var s1 := Enqueue(Boot(), ReadyQ, 0, 8);
    assert Members(s1, ReadyQ) == [8];
    ReachSpawn(s1, 7, 1);
    var s2 := Enqueue(s1, ReadyQ, 1, 7);
    assert Insert([8], 1, 7) == [8, 7];
    assert s2.queues == BothReady().queues;
    assert s2.place == BothReady().place;
  }

  /** Thread 8 runs, thread 7 is ready. */
  function EightRuns(): State {
    Single(8, map[ReadyQ := [7]], map[], {}, map[0 := Parked(0), 8 := OnCore(0), 7 := Queued(ReadyQ)])
  }

  /** The idle thread hands the core to thread 8. */
  lemma EightStarts()
    ensures CanTurn(BothReady(), 0, Stop) && CanLand(BothReady(), 0, Stop, 0)
    ensures AfterTurn(BothReady(), 0, Stop, 0) == EightRuns()
  {
    var s, s' := BothReady(), AfterTurn(BothReady(), 0, Stop, 0);
    assert s.idle[0] == 0 && IsIdle(s, 0);
    assert s'.queues == EightRuns().queues;
    assert s'.place == EightRuns().place;
    assert s'.pinned == {};
  }

  /** Thread 7 runs, thread 8 waits for semaphore 0. */
  function Waiting(): State {
    Single(7, map[ReadyQ := [], Waiters(0) := [8]], map[], {},
           map[0 := Parked(0), 7 := OnCore(0), 8 := Queued(Waiters(0))])
  }

  /** Thread 8 blocks in down and thread 7 gets the core. */
  lemma EightWaits()
    ensures CanTurn(EightRuns(), 0, Down(0)) && CanLand(EightRuns(), 0, Down(0), 0)
    ensures AfterTurn(EightRuns(), 0, Down(0), 0) == Waiting()
  {
    var s' := AfterTurn(EightRuns(), 0, Down(0), 0);
    assert Insert([], 0, 8) == [8] && [7][1..] == [];
    assert s'.queues == Waiting().queues;
    assert s'.place == Waiting().place;
    assert s'.pinned == {};
  }

  /** Thread 7 has taken thread 8 off the wait queue, in up, and not scheduled it yet. */
  function Holding(): State {
    Single(7, map[ReadyQ := [], Waiters(0) := []], map[7 := Wake(8)], {},
           map[0 := Parked(0), 7 := OnCore(0), 8 := InHand(7)])
  }

  lemma SevenTakes()
    ensures Enabled(Waiting(), Take(0, 0)) && Apply(Waiting(), Take(0, 0)) == Holding()
  {
    var s' := Apply(Waiting(), Take(0, 0));
    assert s'.queues == Holding().queues;
    assert s'.place == Holding().place;
    assert s'.hand == Holding().hand;
  }

  /** Thread 7 was stopped there. */
  function Stranded(): State {
    Single(0, map[ReadyQ := [], Waiters(0) := [], Zombies := [7]], map[7 := Wake(8)], {},
           map[0 := OnCore(0), 7 := Queued(Zombies), 8 := InHand(7)])
  }

  lemma SevenStops()
    ensures CanTurn(Holding(), 0, Stop) && CanLand(Holding(), 0, Stop, 0)
    ensures AfterTurn(Holding(), 0, Stop, 0) == Stranded()
  {
    var s, s' := Holding(), AfterTurn(Holding(), 0, Stop, 0);
    assert s.idle[0] == 0 && !IsIdle(s, 7);
    assert Insert([], 0, 7) == [7];
    assert s'.queues == Stranded().queues;
    assert s'.place == Stranded().place;
    assert s'.pinned == {};
  }

  /** The reaper deleted thread 7. */
  function Reaped(): State {
    Single(0, map[ReadyQ := [], Waiters(0) := [], Zombies := []], map[7 := Wake(8)], {},
           map[0 := OnCore(0), 7 := Deleted, 8 := InHand(7)])
  }

  lemma SevenIsReaped()
    ensures Enabled(Stranded(), TakeZombie(0))
    ensures var s := Apply(Stranded(), TakeZombie(0));
            Enabled(s, Delete(0)) && Apply(s, Delete(0)) == Reaped()
  {
    var s := Apply(Stranded(), TakeZombie(0));
    assert s.hand == map[7 := Wake(8), 0 := Reap(7)];
    var s' := Apply(s, Delete(0));
    assert s'.queues == Reaped().queues;
    assert s'.place == Reaped().place;
    assert s'.hand == Reaped().hand;
  }

  /** A run that ends with the holder deleted and the thread in its hand in no queue and on no core. */
  lemma LostExample()
    ensures Reachable(Reaped()) && At(Reaped(), 7, Deleted) && Lost(Reaped(), 8, 7) && !Found(Reaped(), 8)
  {
    BothReadyReachable();
    EightStarts();
    ReachTurn(BothReady(), 0, Stop, 0);
    EightWaits();
    ReachTurn(EightRuns(), 0, Down(0), 0);
    HoldingIsReaped();
    ReachableIsGood(Reaped());
    LostIsNotFound(Reaped(), 8, 7);
  }

  lemma HoldingIsReaped()
    requires Reachable(Waiting())
    ensures Reachable(Reaped())
  {
    SevenTakes();
    ReachStep(Waiting(), Take(0, 0));
    SevenStops();
    ReachTurn(Holding(), 0, Stop, 0);
    SevenIsReaped();
    ReachStep(Stranded(), TakeZombie(0));
    ReachStep(Apply(Stranded(), TakeZombie(0)), Delete(0));
  }
}

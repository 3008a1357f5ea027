/** The reusable barrier's parking step is what the scheduler's publish step does for Condition::wait. */
module ConditionRefinement {
  import opened Scheduler
  import opened SchedulerSafety
  import B = ReusableBarrier

  /** Thread `t` of the barrier has released the lock in wait and its core `c` is about to run the handler; the
      condition's waiters are queue `q`. */
  ghost predicate AboutToPark(b: B.State, s: State, q: int, c: int, t: Tid) {
    && Inv(s) && 0 <= c < |s.cores| && |s.idle| == |s.cores|
    && s.cores[c].phase == Switched(t, Wait(q)) && !IsIdle(s, t)
    && t in b.at && b.at[t].Parking? && Members(s, Waiters(q)) == b.queue
  }

  /** The handler finds that the condition's epoch has moved since the thread remembered it. */
  predicate Stale(b: B.State, t: Tid)
    requires t in b.at && b.at[t].Parking?
  {
    b.condEpoch != b.at[t].seen
  }

  /** Park is Publish with the epoch compared: both queues stay the same, and the thread is in the condition's queue
      exactly when the barrier says that it waits, and ready exactly when it says that it is woken. */
  lemma ParkIsPublish(b: B.State, s: State, q: int, c: int, t: Tid, pos: int)
    requires AboutToPark(b, s, q, c, t) && 0 <= b.epoch < |b.arrivals|
    requires Enabled(s, Publish(c, pos, Stale(b, t)))
    ensures var b', s' := B.Apply(b, B.Park(t)), Apply(s, Publish(c, pos, Stale(b, t)));
            && Inv(s') && Members(s', Waiters(q)) == b'.queue && t in b'.at
            && (b'.at[t].Waiting? <==> At(s', t, Queued(Waiters(q))))
            && (b'.at[t].Woken? <==> At(s', t, Queued(ReadyQ)))
            && (b'.at[t].Waiting? <==> b.condEpoch == b.at[t].seen)
  {
    PublishLands(s, c, pos, Stale(b, t));
    StepKeeps(s, Publish(c, pos, Stale(b, t)));
  }

  /** A publish that saw the epoch move. */
  predicate StalePublish(s: State, e: Event) {
    && e.Publish? && e.stale && 0 <= e.c < |s.cores|
    && match s.cores[e.c].phase
       case Switched(_, why) => why.Wait?
       case _ => false
  }

  /** Over every interleaving, such a publish adds to no wait queue: the thread it handles is ready or was idle. */
  lemma StaleNeverWaits(states: seq<State>, events: seq<Event>, i: int, q: int)
    requires Run(states, events) && 0 <= i < |events| && StalePublish(states[i], events[i])
    ensures Members(states[i + 1], Waiters(q)) == Members(states[i], Waiters(q))
    ensures var me := states[i].cores[events[i].c].phase.prev;
            IsIdle(states[i], me) || At(states[i + 1], me, Queued(ReadyQ))
  {
    RunKeeps(states, events, i);
    var s, e := states[i], events[i];
    assert Enabled(s, e);
    if !IsIdle(s, s.cores[e.c].phase.prev) { PublishLands(s, e.c, e.pos, e.stale); }
  }
}

/** Who is pinned: the no_preempt flag that a yield without a successor leaves set. */
module SchedulerPins {
  import opened Scheduler
  import opened SchedulerSafety
  import opened SchedulerTurns

  /** Core `c` leaves block through the CanReturn exit in this step: nobody was ready. */
  predicate Returns(s: State, e: Event, c: int) {
    && e == Pick(c) && 0 <= c < |s.cores|
    && s.cores[c].phase == Picking(Yield) && Members(s, ReadyQ) == []
  }

  /** The last time core `c` left block, up to the i-th state, it was through the CanReturn exit. */
  ghost predicate LastReturned(states: seq<State>, events: seq<Event>, i: int, c: int)
    requires 0 <= i <= |events| == |states| - 1
    decreases i
  {
    i > 0 &&
    (Returns(states[i - 1], events[i - 1], c) ||
     (!(events[i - 1].Publish? && events[i - 1].c == c) && LastReturned(states, events, i - 1, c)))
  }

  /** A thread that runs outside block is pinned exactly when `returned`; one that was just switched to is not. */
  ghost predicate PinOk(s: State, c: int, returned: bool)
    requires 0 <= c < |s.cores|
  {
    var k := s.cores[c];
    match k.phase
    case Running => IsIdle(s, k.active) || (k.active in s.pinned <==> returned)
    case Switched(_, _) => k.active !in s.pinned
    case _ => true
  }

  lemma OtherCorePin(s: State, e: Event, c: int, returned: bool)
    requires Inv(s) && Enabled(s, e) && 0 <= c < |s.cores| && e.c != c && PinOk(s, c, returned)
    ensures PinOk(Apply(s, e), c, returned) && Apply(s, e).cores[c] == s.cores[c]
    ensures s.cores[c].active in Apply(s, e).pinned <==> s.cores[c].active in s.pinned
  {
    assert CoreOk(s, c) && CoreOk(s, e.c);
  }

  lemma OwnCorePin(s: State, e: Event, c: int, returned: bool)
    requires Inv(s) && Enabled(s, e) && e.c == c && PinOk(s, c, returned)
    ensures PinOk(Apply(s, e), c, Returns(s, e, c) || (!e.Publish? && returned))
  {
    assert CoreOk(s, c);
  }

  /** In every interleaving, a non-idle thread running outside block is pinned exactly when the last time its
      core left block was the return of a yield that found the ready queue empty. */
  lemma {:induction false} PinnedWhen(states: seq<State>, events: seq<Event>, i: int, c: int)
    requires Run(states, events) && 0 <= i <= |events| && 0 <= c < |states[i].cores|
    ensures PinOk(states[i], c, LastReturned(states, events, i, c))
    decreases i
  {
    if i > 0 {
      var s, e := states[i - 1], events[i - 1];
      RunKeeps(states, events, i - 1);
      assert Enabled(s, e);
      CoresStay(s, e);
      PinnedWhen(states, events, i - 1, c);
      var returned := LastReturned(states, events, i - 1, c);
      if e.c == c { OwnCorePin(s, e, c, returned); } else { OtherCorePin(s, e, c, returned); }
    }
  }

  lemma CoresStay(s: State, e: Event)
    requires Enabled(s, e)
    ensures |Apply(s, e).cores| == |s.cores| && Apply(s, e).idle == s.idle
  {
  }

  /** A tick outside block is ignored exactly when the thread is idle or the last exit was such a return;
      otherwise it starts a yield. */
  lemma TickIgnoredWhen(states: seq<State>, events: seq<Event>, i: int, c: int)
    requires Run(states, events) && 0 <= i <= |events| && 0 <= c < |states[i].cores|
    requires states[i].cores[c].phase.Running?
    ensures TickStep(states[i], c) == states[i] <==>
            IsIdle(states[i], states[i].cores[c].active) || LastReturned(states, events, i, c)
  {
    PinnedWhen(states, events, i, c);
    var s := states[i];
    assert TickStep(s, c) == s ==> TickStep(s, c).cores[c] == s.cores[c];
  }

  /** After such a return the thread keeps its core through any steps of any cores, whatever becomes ready,
      until it calls block itself. */
  lemma {:induction false} ReturnSticks(states: seq<State>, events: seq<Event>, i: int, j: int, c: int)
    requires Run(states, events) && 0 <= i < j <= |events| && Returns(states[i], events[i], c)
    requires forall k :: i < k < j && events[k].Block? ==> events[k].c != c
    ensures |states[j].cores| == |states[i].cores| && states[j].idle == states[i].idle
    ensures states[j].cores[c] == states[i].cores[c].(phase := Running)
    ensures states[j].cores[c].active in states[j].pinned
    decreases j - i
  {
    RunKeeps(states, events, j - 1);
    var s, e := states[j - 1], events[j - 1];
    assert Enabled(s, e);
    CoresStay(s, e);
    if i + 1 < j {
      ReturnSticks(states, events, i, j - 1, c);
      if e.c != c { OtherCorePin(s, e, c, true); }
    } else {
      assert CoreOk(s, c);
    }
  }

  // ---------------------------------------------------------------- at an input

  /** Thread 7 alone on one core. */
  function Alone(pinned: set<Tid>): State {
    Single(7, map[ReadyQ := []], map[], pinned, map[0 := Parked(0), 7 := OnCore(0)])
  }

  /** The idle thread hands the core to thread 7. */
  lemma AloneReachable()
    ensures Reachable(Alone({}))
  {
    BootReachable();
    ReachSpawn(Boot(), 7, 0);
    var s := Enqueue(Boot(), ReadyQ, 0, 7);
    assert Members(s, ReadyQ) == [7] && s.idle[0] == 0 && IsIdle(s, 0);
    ReachTurn(s, 0, Stop, 0);
    var s' := AfterTurn(s, 0, Stop, 0);
    assert s'.queues == Alone({}).queues;
    assert s'.place == Alone({}).place;
    assert s'.pinned == {};
  }

  /** A tick finds nobody ready, and the yield returns with thread 7 pinned. */
  lemma AloneTicked()
    ensures Enabled(Alone({}), Tick(0)) && Enabled(Apply(Alone({}), Tick(0)), Pick(0))
    ensures Apply(Apply(Alone({}), Tick(0)), Pick(0)) == Alone({7})
  {
    var s := Alone({});
    assert !IsIdle(s, 7);
    assert Apply(s, Tick(0)).pinned == {7};
    assert Apply(Apply(s, Tick(0)), Pick(0)).cores == s.cores;
  }

  /** Thread 8 ready behind the pinned thread 7. */
  function Starving(): State {
    Single(7, map[ReadyQ := [8]], map[], {7}, map[0 := Parked(0), 7 := OnCore(0), 8 := Queued(ReadyQ)])
  }

  /** A run from boot in which a tick finds nobody ready and returns, and thread 8 is then created and scheduled:
      every later tick is ignored. */
  lemma AloneExample()
    ensures Reachable(Starving()) && Members(Starving(), ReadyQ) == [8] && TickStep(Starving(), 0) == Starving()
  {
    AloneReachable();
    AloneTicked();
    ReachStep(Alone({}), Tick(0));
    ReachStep(Apply(Alone({}), Tick(0)), Pick(0));
    ReachSpawn(Alone({7}), 8, 0);
    var s := Enqueue(Alone({7}), ReadyQ, 0, 8);
    assert Insert([], 0, 8) == [8];
    assert s.queues == Starving().queues;
    assert s.place == Starving().place;
  }
}

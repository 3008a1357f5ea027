/** A whole turn through block on one core, and the states that runs can reach. */
module SchedulerTurns {
  import opened Scheduler
  import opened SchedulerSafety

  // ---------------------------------------------------------------- reachable states

  ghost predicate Reachable(s: State) {
    exists states: seq<State>, events: seq<Event> :: Run(states, events) && states[|events|] == s
  }

  lemma ReachInit(s: State)
    requires Init(s)
    ensures Reachable(s)
  {
    var states: seq<State>, events: seq<Event> := [s], [];
    assert Run(states, events) && states[|events|] == s;
  }

  lemma ReachStep(s: State, e: Event)
    requires Reachable(s) && Enabled(s, e)
    ensures Reachable(Apply(s, e))
  {
    var states: seq<State>, events: seq<Event> :| Run(states, events) && states[|events|] == s;
    var states', events' := states + [Apply(s, e)], events + [e];
    assert states'[|events|] == s && states'[|events'|] == Apply(s, e) && events'[|events|] == e;
    forall i | 0 <= i < |events|
      ensures Enabled(states'[i], events'[i]) && states'[i + 1] == Apply(states'[i], events'[i])
    {
      assert events'[i] == events[i] && states'[i] == states[i] && states'[i + 1] == states[i + 1];
    }
    assert Run(states', events');
  }

  lemma ReachableIsGood(s: State)
    requires Reachable(s)
    ensures Inv(s)
  {
    var states: seq<State>, events: seq<Event> :| Run(states, events) && states[|events|] == s;
    RunKeeps(states, events, |events|);
  }

  // ---------------------------------------------------------------- one turn

  /** The thread a core that blocks switches to. */
  function Next(s: State, c: int): Tid
    requires 0 <= c < |s.idle|
  {
    if Members(s, ReadyQ) != [] then Members(s, ReadyQ)[0] else s.idle[c]
  }

  function QueuesLeft(s: State): map<Queue, seq<Tid>> {
    if Members(s, ReadyQ) != [] then s.queues[ReadyQ := Members(s, ReadyQ)[1..]] else s.queues
  }

  /** The core goes through block without the CanReturn exit, to a thread other than the caller. */
  ghost predicate CanTurn(s: State, c: int, why: Reason) {
    && 0 <= c < |s.cores| && |s.idle| == |s.cores| && s.cores[c].phase.Running?
    && s.cores[c].stack == s.cores[c].active && Next(s, c) != s.cores[c].active
    && (IsIdle(s, s.cores[c].active) ==> why == Yield || why == Stop)
    && (Members(s, ReadyQ) == [] ==> why != Yield && !IsIdle(s, s.cores[c].active))
  }

  /** The queue the caller of block ends up in accepts it at `pos`. */
  ghost predicate CanLand(s: State, c: int, why: Reason, pos: int)
    requires 0 <= c < |s.cores|
  {
    var d := Destination(why, false);
    var l := if d in QueuesLeft(s) then QueuesLeft(s)[d] else [];
    IsIdle(s, s.cores[c].active) || (0 <= pos <= |l| && (d != ReadyQ ==> pos == |l|))
  }

  /** The state after the whole turn, nothing else happening meanwhile. */
  function AfterTurn(s: State, c: int, why: Reason, pos: int): State
    requires 0 <= c < |s.cores| && |s.idle| == |s.cores|
  {
    var me, next, q := s.cores[c].active, Next(s, c), QueuesLeft(s);
    var d := Destination(why, false);
    var l := if d in q then q[d] else [];
    var place := s.place[next := OnCore(c)];
    var cores := s.cores[c := Core(next, next, Running)];
    if IsIdle(s, me) then State(cores, s.idle, q, s.hand, s.pinned - {me, next}, place[me := Parked(c)])
    else if 0 <= pos <= |l| then
      State(cores, s.idle, q[d := Insert(l, pos, me)], s.hand, s.pinned - {me, next}, place[me := Queued(d)])
    else s
  }

  /** The state in which the core is about to pick. */
  function Blocked(s: State, c: int, why: Reason): State
    requires 0 <= c < |s.cores|
  {
    SetCore(s, c, s.cores[c].(phase := Picking(why))).(pinned := s.pinned + {s.cores[c].active})
  }

  /** The state after the pick. */
  function Chose(s: State, c: int, why: Reason): State
    requires 0 <= c < |s.cores| && |s.idle| == |s.cores|
  {
    var k := s.cores[c];
    State(s.cores[c := k.(phase := Picked(Next(s, c), why))], s.idle, QueuesLeft(s), s.hand,
          s.pinned + {k.active}, s.place[Next(s, c) := Chosen(c)])
  }

  lemma PickIs(s: State, c: int, why: Reason)
    requires CanTurn(s, c, why)
    ensures Enabled(Blocked(s, c, why), Pick(c)) && Apply(Blocked(s, c, why), Pick(c)) == Chose(s, c, why)
  {
    assert Members(Blocked(s, c, why), ReadyQ) == Members(s, ReadyQ);
  }

  /** The state on the new stack, before the handler. */
  function OnNewStack(s: State, c: int, why: Reason): State
    requires 0 <= c < |s.cores| && |s.idle| == |s.cores|
  {
    var me, next := s.cores[c].active, Next(s, c);
    State(s.cores[c := Core(next, next, Switched(me, why))], s.idle, QueuesLeft(s), s.hand,
          s.pinned - {me, next}, s.place[me := Leaving(c)][next := OnCore(c)])
  }

  lemma SwitchIs(s: State, c: int, why: Reason)
    requires CanTurn(s, c, why)
    ensures var s1 := Chose(s, c, why);
            && Enabled(s1, Install(c)) && Enabled(Apply(s1, Install(c)), Switch(c))
            && Apply(Apply(s1, Install(c)), Switch(c)) == OnNewStack(s, c, why)
  {
    var me, next, s1 := s.cores[c].active, Next(s, c), Chose(s, c, why);
    var s3 := Apply(Apply(s1, Install(c)), Switch(c));
    assert s3.pinned == s.pinned - {me, next};
    assert s3.place == s.place[me := Leaving(c)][next := OnCore(c)];
    assert s3.cores == s.cores[c := Core(next, next, Switched(me, why))];
  }

  lemma PublishIs(s: State, c: int, why: Reason, pos: int)
    requires CanTurn(s, c, why) && CanLand(s, c, why, pos)
    ensures var s3 := OnNewStack(s, c, why);
            Enabled(s3, Publish(c, pos, false)) && Apply(s3, Publish(c, pos, false)) == AfterTurn(s, c, why, pos)
  {
    var s3, s4 := OnNewStack(s, c, why), AfterTurn(s, c, why, pos);
    var s4' := Apply(s3, Publish(c, pos, false));
    assert s4'.cores == s4.cores;
    assert s4'.place == s4.place;
  }

  /** Pick, install, switch and publish, one after the other, amount to AfterTurn. */
  lemma TurnIs(s: State, c: int, why: Reason, pos: int)
    requires CanTurn(s, c, why) && CanLand(s, c, why, pos)
    ensures var s1 := Blocked(s, c, why);
            && Enabled(s, Block(c, why)) && Apply(s, Block(c, why)) == s1
            && Enabled(s1, Pick(c)) && Enabled(Apply(s1, Pick(c)), Install(c))
            && Enabled(Apply(Apply(s1, Pick(c)), Install(c)), Switch(c))
            && var s3 := Apply(Apply(Apply(s1, Pick(c)), Install(c)), Switch(c));
               Enabled(s3, Publish(c, pos, false)) && Apply(s3, Publish(c, pos, false)) == AfterTurn(s, c, why, pos)
  {
    PickIs(s, c, why);
    SwitchIs(s, c, why);
    PublishIs(s, c, why, pos);
  }

  lemma ReachTurn(s: State, c: int, why: Reason, pos: int)
    requires Reachable(s) && CanTurn(s, c, why) && CanLand(s, c, why, pos)
    ensures Reachable(AfterTurn(s, c, why, pos))
  {
    TurnIs(s, c, why, pos);
    var s1 := Blocked(s, c, why);
    ReachStep(s, Block(c, why));
    ReachStep(s1, Pick(c));
    var s2 := Apply(s1, Pick(c));
    ReachStep(s2, Install(c));
    var s3 := Apply(s2, Install(c));
    ReachStep(s3, Switch(c));
    ReachStep(Apply(s3, Switch(c)), Publish(c, pos, false));
  }

  // ---------------------------------------------------------------- one core

  /** One core, thread 0 its idle thread. */
  function Single(active: Tid, queues: map<Queue, seq<Tid>>, hand: map<Tid, Held>, pinned: set<Tid>,
                  place: map<Tid, Place>): State
  {
    State([Core(active, active, Running)], [0], queues, hand, pinned, place)
  }

  function Boot(): State { Single(0, map[], map[], {}, map[0 := OnCore(0)]) }

  lemma BootReachable()
    ensures Reachable(Boot())
  {
    var s := Boot();
    assert At(s, s.idle[0], OnCore(0));
    assert s.idle[0] == 0;
    ReachInit(s);
  }

  /** The running thread creates thread `t` and schedules it at `pos`. */
  lemma ReachSpawn(s: State, t: Tid, pos: int)
    requires Reachable(s) && 0 < |s.cores| == |s.idle| && s.cores[0].phase.Running?
    requires t !in s.place && s.cores[0].active !in s.hand && 0 <= pos <= |Members(s, ReadyQ)|
    ensures Reachable(Enqueue(s, ReadyQ, pos, t))
  {
    var me := s.cores[0].active;
    ReachStep(s, Create(0, t));
    var s1 := Apply(s, Create(0, t));
    assert Members(s1, ReadyQ) == Members(s, ReadyQ);
    ReachStep(s1, Give(0, pos));
    var s2 := Apply(s1, Give(0, pos));
    assert s2.hand == s.hand;
    assert s2.place == s.place[t := Queued(ReadyQ)];
    assert s2 == Enqueue(s, ReadyQ, pos, t);
  }
}

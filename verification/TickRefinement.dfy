/** One tick of FairTicks is what the scheduler's steps do on one core. */
module TickRefinement {
  import opened Scheduler
  import opened SchedulerSafety
  import opened SchedulerTurns
  import F = FairTicks

  function Ids(l: seq<F.Thread>): (r: seq<Tid>)
    ensures |r| == |l| && forall i :: 0 <= i < |l| ==> r[i] == l[i].id
  {
    seq(|l|, i requires 0 <= i < |l| => l[i].id)
  }

  /** The one core runs the system's current thread outside block, and the ready queue is its ready queue. */
  ghost predicate Matches(f: F.System, s: State) {
    && Inv(s) && |s.cores| == 1
    && s.cores[0].phase.Running? && s.cores[0].active == f.current.id && !IsIdle(s, f.current.id)
    && Members(s, ReadyQ) == Ids(f.ready)
    && (f.current.id in s.pinned <==> f.pinned)
  }

  /** Where the ready queue puts the thread that yields. */
  function Spot(f: F.System): int
    requires f.ready != []
  {
    F.Slot(f.ready[1..], f.current.(runTime := f.current.runTime + 1))
  }

  lemma QueueIds(l: seq<F.Thread>, x: F.Thread)
    ensures Ids(F.Queue(l, x)) == Insert(Ids(l), F.Slot(l, x), x.id)
  {
    var p := F.Slot(l, x);
    forall i | 0 <= i <= |l| ensures Ids(F.Queue(l, x))[i] == Insert(Ids(l), p, x.id)[i] { F.QueueAt(l, x, i); }
  }

  /** A pinned thread: the tick is ignored. */
  lemma IgnoredTick(f: F.System, s: State)
    requires Matches(f, s) && f.pinned
    ensures Enabled(s, Tick(0)) && Apply(s, Tick(0)) == s && Matches(F.Tick(f), s)
  {
  }

  /** Nobody ready: the yield returns, and the thread goes on pinned. */
  lemma LonelyTick(f: F.System, s: State)
    requires Matches(f, s) && !f.pinned && f.ready == []
    ensures Enabled(s, Tick(0)) && Enabled(Apply(s, Tick(0)), Pick(0))
    ensures Matches(F.Tick(f), Apply(Apply(s, Tick(0)), Pick(0)))
  {
    var s1 := Apply(s, Tick(0));
    StepKeeps(s, Tick(0));
    assert Members(s1, ReadyQ) == [];
    StepKeeps(s1, Pick(0));
  }

  /** The tick starts the same turn that a call of yield does. */
  lemma TickIsYield(f: F.System, s: State)
    requires Matches(f, s) && !f.pinned && f.ready != []
    ensures Enabled(s, Tick(0)) && Apply(s, Tick(0)) == Blocked(s, 0, Yield)
    ensures CanTurn(s, 0, Yield) && CanLand(s, 0, Yield, Spot(f)) && Next(s, 0) == f.ready[0].id
  {
    assert CoreOk(s, 0) && QueueOk(s, ReadyQ, 0);
  }

  /** Somebody ready: tick, pick, install, switch and publish at the ready queue's position. */
  lemma BusyTick(f: F.System, s: State)
    requires Matches(f, s) && !f.pinned && f.ready != []
    ensures Enabled(s, Tick(0))
    ensures var s1 := Apply(s, Tick(0));
            && Enabled(s1, Pick(0)) && Enabled(Apply(s1, Pick(0)), Install(0))
            && Enabled(Apply(Apply(s1, Pick(0)), Install(0)), Switch(0))
            && var s3 := Apply(Apply(Apply(s1, Pick(0)), Install(0)), Switch(0));
               Enabled(s3, Publish(0, Spot(f), false)) && Matches(F.Tick(f), Apply(s3, Publish(0, Spot(f), false)))
  {
    TickIsYield(f, s);
    TurnIs(s, 0, Yield, Spot(f));
    TurnKeeps(s, 0, Yield, Spot(f));
    TurnMatches(f, s);
  }

  lemma TurnKeeps(s: State, c: int, why: Reason, pos: int)
    requires Inv(s) && CanTurn(s, c, why) && CanLand(s, c, why, pos)
    ensures Inv(AfterTurn(s, c, why, pos))
  {
    TurnIs(s, c, why, pos);
    var s1 := Blocked(s, c, why);
    StepKeeps(s, Block(c, why));
    StepKeeps(s1, Pick(c));
    var s2 := Apply(s1, Pick(c));
    StepKeeps(s2, Install(c));
    var s3 := Apply(s2, Install(c));
    StepKeeps(s3, Switch(c));
    StepKeeps(Apply(s3, Switch(c)), Publish(c, pos, false));
  }

  /** The ready queue after the turn. */
  lemma TurnReady(f: F.System, s: State)
    requires |s.cores| == |s.idle| == 1 && s.cores[0].active == f.current.id && !IsIdle(s, f.current.id)
    requires f.ready != [] && Members(s, ReadyQ) == Ids(f.ready)
    ensures Members(AfterTurn(s, 0, Yield, Spot(f)), ReadyQ) ==
            Ids(F.Queue(f.ready[1..], f.current.(runTime := f.current.runTime + 1)))
  {
    QueueIds(f.ready[1..], f.current.(runTime := f.current.runTime + 1));
    assert Ids(f.ready)[1..] == Ids(f.ready[1..]);
  }

  /** A queued thread is not an idle one. */
  lemma ReadyIsNotIdle(s: State)
    requires Inv(s) && Members(s, ReadyQ) != []
    ensures !IsIdle(s, Members(s, ReadyQ)[0])
  {
    assert QueueOk(s, ReadyQ, 0);
    forall z | 0 <= z < |s.idle| ensures s.idle[z] != Members(s, ReadyQ)[0] { assert IdleOk(s, z); }
  }

  lemma TurnMatches(f: F.System, s: State)
    requires Matches(f, s) && !f.pinned && f.ready != []
    requires CanTurn(s, 0, Yield) && CanLand(s, 0, Yield, Spot(f)) && Next(s, 0) == f.ready[0].id
    requires Inv(AfterTurn(s, 0, Yield, Spot(f)))
    ensures Matches(F.Tick(f), AfterTurn(s, 0, Yield, Spot(f)))
  {
    TurnReady(f, s);
    ReadyIsNotIdle(s);
  }
}

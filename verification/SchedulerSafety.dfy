/** Every step of every core keeps every thread in exactly one place. */
module SchedulerSafety {
  import opened Lists
  import opened Scheduler

  /** A step that leaves the queues alone keeps the invariant if it keeps each part of it. */
  lemma Frame(s: State, s': State)
    requires Inv(s) && s'.queues == s.queues && |s'.idle| == |s'.cores| == |s.cores|
    requires forall c {:trigger CoreOk(s', c)} :: 0 <= c < |s.cores| && CoreOk(s, c) ==> CoreOk(s', c)
    requires forall q, k {:trigger QueueOk(s', q, k)} ::
               0 <= k < |Members(s, q)| && QueueOk(s, q, k) ==> QueueOk(s', q, k)
    requires forall u {:trigger HandOk(s', u)} :: u in s'.hand && (u in s.hand ==> HandOk(s, u)) ==> HandOk(s', u)
    requires forall t {:trigger ThreadOk(s', t)} ::
               t in s'.place && (t in s.place ==> ThreadOk(s, t)) ==> ThreadOk(s', t)
    requires forall c {:trigger IdleOk(s', c)} :: 0 <= c < |s.idle| && IdleOk(s, c) ==> IdleOk(s', c)
    ensures Inv(s')
  {
    forall c | 0 <= c < |s'.cores| ensures CoreOk(s', c) && IdleOk(s', c) { assert CoreOk(s, c) && IdleOk(s, c); }
    forall q, k | 0 <= k < |Members(s', q)| ensures QueueOk(s', q, k) { assert QueueOk(s, q, k); }
    forall q, j, k | 0 <= j < k < |Members(s', q)| ensures Differ(Members(s', q), j, k) {
      assert Differ(Members(s, q), j, k);
    }
    forall u | u in s'.hand ensures HandOk(s', u) { assert u in s.hand ==> HandOk(s, u); }
    forall t | t in s'.place ensures ThreadOk(s', t) { assert t in s.place ==> ThreadOk(s, t); }
  }

  lemma BlockKeeps(s: State, c: int, why: Reason)
    requires Inv(s) && 0 <= c < |s.cores| && s.cores[c].phase.Running?
    ensures var k := s.cores[c];
            Inv(SetCore(s, c, k.(phase := Picking(why))).(pinned := s.pinned + {k.active}))
  {
    var s' := SetCore(s, c, s.cores[c].(phase := Picking(why))).(pinned := s.pinned + {s.cores[c].active});
    assert CoreOk(s, c);
    Frame(s, s');
  }

  /** A tick outside thread code finds the active thread pinned and changes nothing: switches do not nest. */
  lemma TickDuringSwitch(s: State, c: int)
    requires Inv(s) && Enabled(s, Tick(c)) && !s.cores[c].phase.Running?
    ensures Apply(s, Tick(c)) == s
  {
    assert CoreOk(s, c);
  }

  lemma ReturnKeeps(s: State, c: int)
    requires Inv(s) && 0 <= c < |s.cores| && s.cores[c].phase.Picking?
    ensures Inv(SetCore(s, c, s.cores[c].(phase := Running)))
  {
    var s' := SetCore(s, c, s.cores[c].(phase := Running));
    assert CoreOk(s, c);
    Frame(s, s');
  }

  /** Taking the head of the ready queue. */
  lemma PickReadyKeeps(s: State, c: int)
    requires Inv(s) && Enabled(s, Pick(c)) && Members(s, ReadyQ) != []
    ensures Inv(PickStep(s, c))
  {
    var s' := PickStep(s, c);
    var next := Members(s, ReadyQ)[0];
    assert CoreOk(s, c) && QueueOk(s, ReadyQ, 0);
    forall x | 0 <= x < |s'.cores| ensures CoreOk(s', x) { assert CoreOk(s, x); }
    forall q, i | 0 <= i < |Members(s', q)| ensures QueueOk(s', q, i) { HeadLeaves(s, ReadyQ, q, i); }
    forall q, i, j | 0 <= i < j < |Members(s', q)|
      ensures Differ(Members(s', q), i, j)
    {
      TailDiffers(s, ReadyQ, q, i, j);
    }
    forall u | u in s'.hand ensures HandOk(s', u) { assert HandOk(s, u); }
    forall t | t in s'.place
      ensures ThreadOk(s', t)
    {
      if t in s.place { assert ThreadOk(s, t); TailHas(s, ReadyQ, t); }
    }
    forall x | 0 <= x < |s'.idle| ensures IdleOk(s', x) { assert IdleOk(s, x); }
  }

  /** An empty ready queue sends a blocking thread's core to its idle thread, which must be parked. */
  lemma PickIdleKeeps(s: State, c: int)
    requires Inv(s) && Enabled(s, Pick(c)) && Members(s, ReadyQ) == []
    requires s.cores[c].phase.why != Yield && !IsIdle(s, s.cores[c].active)
    ensures Inv(PickStep(s, c)) && At(s, s.idle[c], Parked(c))
  {
    var s' := PickStep(s, c);
    assert CoreOk(s, c) && IdleOk(s, c) && ThreadOk(s, s.idle[c]);
    Frame(s, s');
  }

  lemma InstallKeeps(s: State, c: int)
    requires Inv(s) && Enabled(s, Install(c))
    ensures Inv(InstallStep(s, c))
  {
    var s' := InstallStep(s, c);
    assert CoreOk(s, c);
    Frame(s, s');
  }

  lemma SwitchKeeps(s: State, c: int)
    requires Inv(s) && Enabled(s, Switch(c))
    ensures Inv(SwitchStep(s, c))
  {
    var s' := SwitchStep(s, c);
    assert CoreOk(s, c);
    Frame(s, s');
  }

  lemma ParkKeeps(s: State, c: int, pos: int, stale: bool)
    requires Inv(s) && Enabled(s, Publish(c, pos, stale)) && IsIdle(s, s.cores[c].phase.prev)
    ensures Inv(PublishStep(s, c, pos, stale))
  {
    var s' := PublishStep(s, c, pos, stale);
    assert CoreOk(s, c);
    var z :| 0 <= z < |s.idle| && s.idle[z] == s.cores[c].phase.prev;
    assert IdleOk(s, z);
    Frame(s, s');
  }

  lemma PublishKeeps(s: State, c: int, pos: int, stale: bool)
    requires Inv(s) && Enabled(s, Publish(c, pos, stale)) && !IsIdle(s, s.cores[c].phase.prev)
    ensures Inv(PublishStep(s, c, pos, stale))
  {
    var s' := PublishStep(s, c, pos, stale);
    var prev, d := s.cores[c].phase.prev, Destination(s.cores[c].phase.why, stale);
    assert CoreOk(s, c);
    forall x | 0 <= x < |s'.cores| ensures CoreOk(s', x) { assert CoreOk(s, x); }
    forall q, i | 0 <= i < |Members(s', q)| ensures QueueOk(s', q, i) { JoinedOk(s, d, pos, prev, q, i); }
    forall q, i, j | 0 <= i < j < |Members(s', q)|
      ensures Differ(Members(s', q), i, j)
    {
      JoinedDiffers(s, d, pos, prev, q, i, j);
    }
    forall u | u in s'.hand ensures HandOk(s', u) { assert HandOk(s, u); }
    forall t | t in s'.place
      ensures ThreadOk(s', t)
    {
      if t in s.place { assert ThreadOk(s, t); }
      JoinedHas(s, d, pos, prev, t);
    }
    forall x | 0 <= x < |s'.idle| ensures IdleOk(s', x) { assert IdleOk(s, x); }
  }

  /** Taking the head of a wait queue or of the zombies in hand. */
  lemma TakeKeeps(s: State, c: int, from: Queue, held: Held)
    requires Inv(s) && 0 <= c < |s.cores| && s.cores[c].phase.Running? && Members(s, from) != []
    requires s.cores[c].active !in s.hand && held.t == Members(s, from)[0]
    ensures Inv(Dequeue(s, from, InHand(s.cores[c].active)).(hand := s.hand[s.cores[c].active := held]))
  {
    var me := s.cores[c].active;
    var s' := Dequeue(s, from, InHand(me)).(hand := s.hand[me := held]);
    assert CoreOk(s, c) && QueueOk(s, from, 0);
    forall x | 0 <= x < |s'.cores| ensures CoreOk(s', x) { assert CoreOk(s, x); }
    forall q, i | 0 <= i < |Members(s', q)| ensures QueueOk(s', q, i) { HeadLeaves(s, from, q, i); }
    forall q, i, j | 0 <= i < j < |Members(s', q)|
      ensures Differ(Members(s', q), i, j)
    {
      TailDiffers(s, from, q, i, j);
    }
    forall u | u in s'.hand ensures HandOk(s', u) { if u in s.hand { assert HandOk(s, u); } }
    forall t | t in s'.place ensures ThreadOk(s', t) { if t in s.place { assert ThreadOk(s, t); TailHas(s, from, t); } }
    forall x | 0 <= x < |s'.idle| ensures IdleOk(s', x) { assert IdleOk(s, x); }
  }

  lemma CreateKeeps(s: State, c: int, t0: Tid)
    requires Inv(s) && Enabled(s, Create(c, t0))
    ensures Inv(Apply(s, Create(c, t0)))
  {
    var s' := Apply(s, Create(c, t0));
    Frame(s, s');
  }

  lemma GiveKeeps(s: State, c: int, pos: int)
    requires Inv(s) && Enabled(s, Give(c, pos))
    ensures Inv(Apply(s, Give(c, pos)))
  {
    var s' := Apply(s, Give(c, pos));
    var me := s.cores[c].active;
    var given := s.hand[me].t;
    assert HandOk(s, me);
    forall x | 0 <= x < |s'.cores| ensures CoreOk(s', x) { assert CoreOk(s, x); }
    forall q, i | 0 <= i < |Members(s', q)| ensures QueueOk(s', q, i) { JoinedOk(s, ReadyQ, pos, given, q, i); }
    forall q, i, j | 0 <= i < j < |Members(s', q)|
      ensures Differ(Members(s', q), i, j)
    {
      JoinedDiffers(s, ReadyQ, pos, given, q, i, j);
    }
    forall u | u in s'.hand ensures HandOk(s', u) { assert HandOk(s, u); }
    forall t | t in s'.place
      ensures ThreadOk(s', t)
    {
      if t in s.place { assert ThreadOk(s, t); }
      JoinedHas(s, ReadyQ, pos, given, t);
    }
    forall x | 0 <= x < |s'.idle| ensures IdleOk(s', x) { assert IdleOk(s, x); }
  }

  lemma DeleteKeeps(s: State, c: int)
    requires Inv(s) && Enabled(s, Delete(c))
    ensures Inv(Apply(s, Delete(c)))
  {
    var s' := Apply(s, Delete(c));
    assert HandOk(s, s.cores[c].active);
    Frame(s, s');
  }

  // ---------------------------------------------------------------- queues

  lemma HeadLeaves(s: State, from: Queue, q: Queue, i: int)
    requires Inv(s) && Members(s, from) != []
    requires 0 <= i < |Members(s, q)| - if q == from then 1 else 0
    ensures var k := if q == from then i + 1 else i;
            QueueOk(s, q, k) && QueueOk(s, from, 0) && Members(s, q)[k] != Members(s, from)[0]
  {
    var k := if q == from then i + 1 else i;
    assert QueueOk(s, q, k) && QueueOk(s, from, 0);
    if q == from { assert Differ(Members(s, q), 0, i + 1); }
  }

  lemma TailDiffers(s: State, from: Queue, q: Queue, i: int, j: int)
    requires Inv(s) && Members(s, from) != []
    requires 0 <= i < j < |Members(s, q)| - if q == from then 1 else 0
    ensures var k := if q == from then 1 else 0;
            Differ(Members(s, q), i + k, j + k)
  {
  }

  lemma TailHas(s: State, from: Queue, t: Tid)
    requires Inv(s) && Members(s, from) != [] && t in s.place
    ensures t in Members(s, from) && t != Members(s, from)[0] ==> t in Members(s, from)[1..]
  {
    var l := Members(s, from);
    if t in l && t != l[0] {
      var k :| 0 <= k < |l| && l[k] == t;
      assert l[1..][k - 1] == t;
    }
  }

  lemma JoinedOk(s: State, to: Queue, pos: int, t: Tid, q: Queue, i: int)
    requires Inv(s) && 0 <= pos <= |Members(s, to)| && t in s.place && !s.place[t].Queued?
    requires 0 <= i < |Members(s, q)| + if q == to then 1 else 0
    ensures var l' := if q == to then Insert(Members(s, to), pos, t) else Members(s, q);
            (q == to && i == pos && l'[i] == t) || (At(s, l'[i], Queued(q)) && l'[i] != t)
  {
    if q != to { assert QueueOk(s, q, i); }
    else if i < pos { assert QueueOk(s, q, i); }
    else if i > pos { assert QueueOk(s, q, i - 1); }
  }

  lemma JoinedDiffers(s: State, to: Queue, pos: int, t: Tid, q: Queue, i: int, j: int)
    requires Inv(s) && 0 <= pos <= |Members(s, to)| && t in s.place && !s.place[t].Queued?
    requires 0 <= i < j < |Members(s, q)| + if q == to then 1 else 0
    ensures var l' := if q == to then Insert(Members(s, to), pos, t) else Members(s, q);
            Differ(l', i, j)
  {
    JoinedOk(s, to, pos, t, q, i);
    JoinedOk(s, to, pos, t, q, j);
    if q != to { assert Differ(Members(s, q), i, j); }
    else if i != pos && j != pos {
      assert Differ(Members(s, q), if i < pos then i else i - 1, if j < pos then j else j - 1);
    }
  }

  lemma JoinedHas(s: State, to: Queue, pos: int, t: Tid, x: Tid)
    requires 0 <= pos <= |Members(s, to)|
    ensures x in Insert(Members(s, to), pos, t) <==> x == t || x in Members(s, to)
  {
    var l, l' := Members(s, to), Insert(Members(s, to), pos, t);
    assert l'[pos] == t;
    if x in l {
      var k :| 0 <= k < |l| && l[k] == x;
      assert l'[if k < pos then k else k + 1] == x;
    }
  }

  /** Where the handler puts the old thread: a yielding one among the ready, one that blocks in down last in that
      semaphore's queue, a stopped one last among the zombies; one that waits for a condition last in its queue if the
      epoch has not moved, and among the ready if it has. No other queue changes. */
  lemma PublishLands(s: State, c: int, pos: int, stale: bool)
    requires Inv(s) && Enabled(s, Publish(c, pos, stale)) && !IsIdle(s, s.cores[c].phase.prev)
    ensures var me, s' := s.cores[c].phase.prev, Apply(s, Publish(c, pos, stale));
            match s.cores[c].phase.why
            case Yield => JoinsReady(s, s', me, pos)
            case Down(q) => JoinsLast(s, s', me, Waiters(q))
            case Wait(q) => if stale then JoinsReady(s, s', me, pos) else JoinsLast(s, s', me, Waiters(q))
            case Stop => JoinsLast(s, s', me, Zombies)
  {
    var me, s' := s.cores[c].phase.prev, Apply(s, Publish(c, pos, stale));
    assert forall q :: q != Destination(s.cores[c].phase.why, stale) ==> Members(s', q) == Members(s, q);
  }

  ghost predicate JoinsReady(s: State, s': State, me: Tid, pos: int) {
    && At(s', me, Queued(ReadyQ)) && 0 <= pos <= |Members(s, ReadyQ)|
    && Members(s', ReadyQ) == Members(s, ReadyQ)[..pos] + [me] + Members(s, ReadyQ)[pos..]
    && forall q :: q != ReadyQ ==> Members(s', q) == Members(s, q)
  }

  ghost predicate JoinsLast(s: State, s': State, me: Tid, to: Queue) {
    && At(s', me, Queued(to)) && Members(s', to) == Members(s, to) + [me]
    && forall q :: q != to ==> Members(s', q) == Members(s, q)
  }

  // ---------------------------------------------------------------- runs

  /** Whatever core moves next, the invariant holds again. */
  lemma StepKeeps(s: State, e: Event)
    requires Inv(s) && Enabled(s, e)
    ensures Inv(Apply(s, e))
  {
    match e
    case Tick(c) => if s.cores[c].phase.Running? { BlockKeeps(s, c, Yield); } else { TickDuringSwitch(s, c); }
    case Block(c, why) => BlockKeeps(s, c, why);
    case Pick(c) =>
      if Members(s, ReadyQ) != [] { PickReadyKeeps(s, c); }
      else if s.cores[c].phase.why == Yield { ReturnKeeps(s, c); }
      else if !IsIdle(s, s.cores[c].active) { PickIdleKeeps(s, c); }
    case Install(c) => InstallKeeps(s, c);
    case Switch(c) => SwitchKeeps(s, c);
    case Publish(c, pos, stale) =>
      if IsIdle(s, s.cores[c].phase.prev) { ParkKeeps(s, c, pos, stale); } else { PublishKeeps(s, c, pos, stale); }
    case Take(c, q) => TakeKeeps(s, c, Waiters(q), Wake(Members(s, Waiters(q))[0]));
    case TakeZombie(c) => TakeKeeps(s, c, Zombies, Reap(Members(s, Zombies)[0]));
    case Create(c, t) => CreateKeeps(s, c, t);
    case Give(c, pos) => GiveKeeps(s, c, pos);
    case Delete(c) => DeleteKeeps(s, c);
  }

  /** threadsInit: every core runs its own idle thread. */
  ghost predicate Init(s: State) {
    && |s.idle| == |s.cores| && s.queues == map[] && s.hand == map[]
    && (forall c {:trigger s.cores[c]} :: 0 <= c < |s.cores| ==> s.cores[c] == Core(s.idle[c], s.idle[c], Running))
    && (forall c {:trigger s.idle[c]} :: 0 <= c < |s.idle| ==> At(s, s.idle[c], OnCore(c)))
    && (forall t {:trigger s.place[t]} :: t in s.place ==> t in s.idle)
  }

  lemma InitHolds(s: State)
    requires Init(s)
    ensures Inv(s)
  {
    forall c | 0 <= c < |s.cores| ensures CoreOk(s, c) && IdleOk(s, c) {
      assert At(s, s.idle[c], OnCore(c));
    }
    forall t | t in s.place ensures ThreadOk(s, t) {
      assert s.place[t] == s.place[t];
      var c :| 0 <= c < |s.idle| && s.idle[c] == t;
    }
  }

  ghost predicate Run(states: seq<State>, events: seq<Event>) {
    && |states| == |events| + 1 && Init(states[0])
    && forall i {:trigger events[i]} :: 0 <= i < |events| ==>
         Enabled(states[i], events[i]) && states[i + 1] == Apply(states[i], events[i])
  }

  /** In every interleaving over any number of cores, every state is consistent. */
  lemma {:induction false} RunKeeps(states: seq<State>, events: seq<Event>, i: int)
    requires Run(states, events) && 0 <= i <= |events|
    ensures Inv(states[i])
    decreases i
  {
    if i == 0 {
      InitHolds(states[0]);
    } else {
      RunKeeps(states, events, i - 1);
      assert Enabled(states[i - 1], events[i - 1]);
      StepKeeps(states[i - 1], events[i - 1]);
    }
  }

  // ---------------------------------------------------------------- what it means

  /** No thread runs, or has its stack in use, on two cores. */
  lemma OneCoreEach(s: State, c: int, c': int)
    requires Inv(s) && 0 <= c < |s.cores| && 0 <= c' < |s.cores| && c != c'
    ensures s.cores[c].active != s.cores[c'].active
    ensures s.cores[c].stack != s.cores[c'].stack
    ensures s.cores[c].stack != s.cores[c'].active
  {
    assert CoreOk(s, c) && CoreOk(s, c');
  }

  /** A queued thread is in that queue only, is on no core, and no core uses its stack. */
  lemma QueuedIsNowhereElse(s: State, q: Queue, t: Tid, c: int)
    requires Inv(s) && t in Members(s, q) && 0 <= c < |s.cores|
    ensures t != s.cores[c].active && t != s.cores[c].stack && !IsIdle(s, t)
    ensures s.cores[c].phase.Picked? ==> s.cores[c].phase.next != t
    ensures forall q' :: q' != q ==> t !in Members(s, q')
    ensures forall u :: u in s.hand ==> s.hand[u].t != t
  {
    var k :| 0 <= k < |Members(s, q)| && Members(s, q)[k] == t;
    assert QueueOk(s, q, k) && CoreOk(s, c);
    forall q' | q' != q ensures t !in Members(s, q') {
      forall j | 0 <= j < |Members(s, q')| ensures Members(s, q')[j] != t { assert QueueOk(s, q', j); }
    }
    forall u | u in s.hand ensures s.hand[u].t != t { assert HandOk(s, u); }
    forall z | 0 <= z < |s.idle| ensures s.idle[z] != t { assert IdleOk(s, z); }
  }

  /** The thread about to be deleted is on no core, in no queue, and no core is still on its stack. */
  lemma DeleteIsSafe(s: State, c: int, x: int)
    requires Inv(s) && Enabled(s, Delete(c)) && 0 <= x < |s.cores|
    ensures var t := s.hand[s.cores[c].active].t;
            && s.cores[x].active != t && s.cores[x].stack != t && !IsIdle(s, t)
            && forall q :: t !in Members(s, q)
  {
    var t := s.hand[s.cores[c].active].t;
    assert HandOk(s, s.cores[c].active) && CoreOk(s, x);
    forall q ensures t !in Members(s, q) {
      forall j | 0 <= j < |Members(s, q)| ensures Members(s, q)[j] != t { assert QueueOk(s, q, j); }
    }
    forall z | 0 <= z < |s.idle| ensures s.idle[z] != t { assert IdleOk(s, z); }
  }

  /** An idle thread never leaves its own core. */
  lemma IdleStaysHome(s: State, z: int, c: int)
    requires Inv(s) && 0 <= z < |s.idle| && 0 <= c < |s.cores|
    requires s.cores[c].active == s.idle[z] || s.cores[c].stack == s.idle[z]
    ensures c == z
  {
    assert IdleOk(s, z) && CoreOk(s, c);
  }
}

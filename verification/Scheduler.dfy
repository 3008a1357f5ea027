/** Threads moving between cores and queues, as an interleaving of per-core steps.

    `block` is several steps: pin the caller, take a thread off the ready queue, publish it as
    active, switch stacks, and only then run the handler that puts the old thread somewhere.
    Each step below is one of those, and any core may take the next one. `place` is the
    specification's record of where every thread is. */
module Scheduler {
  import opened Lists

  type Tid = int

  datatype Queue = ReadyQ | Zombies | Waiters(q: int)

  /** Why a thread blocks, which fixes what the handler does with it afterwards. */
  datatype Reason = Yield | Down(q: int) | Wait(q: int) | Stop

  datatype Phase =
    | Running
    | Picking(why: Reason)                 // inside block, the caller pinned
    | Picked(next: Tid, why: Reason)       // took `next`, active not yet changed
    | Installed(prev: Tid, why: Reason)    // active changed, still on prev's stack
    | Switched(prev: Tid, why: Reason)     // on the new stack, handler not yet run

  datatype Core = Core(active: Tid, stack: Tid, phase: Phase)

  datatype Place =
    | OnCore(c: int)
    | Chosen(c: int)
    | Leaving(c: int)
    | Queued(queue: Queue)
    | InHand(holder: Tid)                  // taken off a queue, or just created, by a running thread
    | Parked(c: int)                       // the idle thread of a core, while another runs there
    | Deleted

  /** What a running thread has in hand: a thread to schedule, or a zombie to delete. */
  datatype Held = Wake(t: Tid) | Reap(t: Tid)

  datatype State = State(
    cores: seq<Core>,
    idle: seq<Tid>,
    queues: map<Queue, seq<Tid>>,
    hand: map<Tid, Held>,
    pinned: set<Tid>,                      // threads with no_preempt set
    place: map<Tid, Place>
  )

  function Members(s: State, q: Queue): seq<Tid> { if q in s.queues then s.queues[q] else [] }

  // ---------------------------------------------------------------- invariant

  ghost predicate At(s: State, t: Tid, p: Place) { t in s.place && s.place[t] == p }

  ghost predicate CoreOk(s: State, c: int)
    requires 0 <= c < |s.cores|
  {
    var k := s.cores[c];
    && At(s, k.active, OnCore(c))
    && match k.phase
       case Running => k.stack == k.active
       case Picking(_) => k.stack == k.active && k.active in s.pinned
       case Picked(next, _) => k.stack == k.active && k.active in s.pinned && At(s, next, Chosen(c))
       case Installed(prev, _) => k.stack == prev && k.active in s.pinned && At(s, prev, Leaving(c))
       case Switched(prev, _) => k.stack == k.active && At(s, prev, Leaving(c))
  }

  ghost predicate QueueOk(s: State, q: Queue, k: int)
    requires 0 <= k < |Members(s, q)|
  {
    At(s, Members(s, q)[k], Queued(q))
  }

  ghost predicate HandOk(s: State, u: Tid)
    requires u in s.hand
  {
    At(s, s.hand[u].t, InHand(u))
  }

  /** The converse: a thread is really found where its record says. */
  ghost predicate ThreadOk(s: State, t: Tid)
    requires t in s.place
  {
    match s.place[t]
    case OnCore(c) => 0 <= c < |s.cores| && s.cores[c].active == t
    case Chosen(c) => 0 <= c < |s.cores| && s.cores[c].phase.Picked? && s.cores[c].phase.next == t
    case Leaving(c) =>
      && 0 <= c < |s.cores|
      && (s.cores[c].phase.Installed? || s.cores[c].phase.Switched?) && s.cores[c].phase.prev == t
    case Queued(q) => t in Members(s, q)
    case InHand(u) => u in s.hand && s.hand[u].t == t
    case Parked(c) => 0 <= c < |s.idle| && s.idle[c] == t
    case Deleted => true
  }

  ghost predicate Home(p: Place, c: int) { p == OnCore(c) || p == Chosen(c) || p == Leaving(c) || p == Parked(c) }

  /** An idle thread is only ever on, entering, leaving or parked at its own core. */
  ghost predicate IdleOk(s: State, c: int)
    requires 0 <= c < |s.idle|
  {
    && s.idle[c] in s.place && Home(s.place[s.idle[c]], c)
  }

  ghost predicate Inv(s: State) {
    && |s.idle| == |s.cores|
    && (forall c {:trigger CoreOk(s, c)} :: 0 <= c < |s.cores| ==> CoreOk(s, c))
    && (forall q, k {:trigger QueueOk(s, q, k)} :: 0 <= k < |Members(s, q)| ==> QueueOk(s, q, k))
    && (forall q, j, k {:trigger Differ(Members(s, q), j, k)} :: 0 <= j < k < |Members(s, q)| ==>
        Differ(Members(s, q), j, k))
    && (forall u {:trigger HandOk(s, u)} :: u in s.hand ==> HandOk(s, u))
    && (forall t {:trigger ThreadOk(s, t)} :: t in s.place ==> ThreadOk(s, t))
    && (forall c {:trigger IdleOk(s, c)} :: 0 <= c < |s.idle| ==> IdleOk(s, c))
  }

  // ---------------------------------------------------------------- steps

  datatype Event =
    | Tick(c: int)
    | Block(c: int, why: Reason)
    | Pick(c: int)
    | Install(c: int)
    | Switch(c: int)
    | Publish(c: int, pos: int, stale: bool)   // pos: where the ready queue inserts; stale: the condition's epoch moved
    | Take(c: int, q: int)                     // up or notify removes a waiter
    | TakeZombie(c: int)
    | Create(c: int, t: Tid)
    | Give(c: int, pos: int)                   // schedule the thread in hand
    | Delete(c: int)

  predicate IsIdle(s: State, t: Tid) { t in s.idle }

  function Insert(l: seq<Tid>, pos: int, t: Tid): seq<Tid>
    requires 0 <= pos <= |l|
  {
    l[..pos] + [t] + l[pos..]
  }

  function SetCore(s: State, c: int, k: Core): State
    requires 0 <= c < |s.cores|
  {
    s.(cores := s.cores[c := k])
  }

  /** `t` joins queue `q` at `pos`. */
  function Enqueue(s: State, q: Queue, pos: int, t: Tid): State
    requires 0 <= pos <= |Members(s, q)|
  {
    s.(queues := s.queues[q := Insert(Members(s, q), pos, t)], place := s.place[t := Queued(q)])
  }

  /** The head of queue `q` leaves it for place `p`. */
  function Dequeue(s: State, q: Queue, p: Place): State
    requires Members(s, q) != []
  {
    s.(queues := s.queues[q := Members(s, q)[1..]], place := s.place[Members(s, q)[0] := p])
  }

  /** A thread leaves block through the handler: where it goes. */
  function Destination(why: Reason, stale: bool): Queue {
    match why
    case Yield => ReadyQ
    case Down(q) => Waiters(q)
    case Wait(q) => if stale then ReadyQ else Waiters(q)
    case Stop => Zombies
  }

  predicate Enabled(s: State, e: Event) {
    && 0 <= e.c < |s.cores| && |s.idle| == |s.cores|
    && var k := s.cores[e.c];
    match e
    case Tick(_) => !k.phase.Switched?
    case Block(_, why) => k.phase.Running? && (IsIdle(s, k.active) ==> why == Yield || why == Stop)
    case Pick(_) => k.phase.Picking?
    case Install(_) => k.phase.Picked?
    case Switch(_) => k.phase.Installed?
    case Publish(_, pos, stale) =>
      && k.phase.Switched?
      && (!IsIdle(s, k.phase.prev) ==>
            var l := Members(s, Destination(k.phase.why, stale));
            0 <= pos <= |l| && (Destination(k.phase.why, stale) != ReadyQ ==> pos == |l|))
    case Take(_, q) => k.phase.Running? && Members(s, Waiters(q)) != [] && k.active !in s.hand
    case TakeZombie(_) => k.phase.Running? && Members(s, Zombies) != [] && k.active !in s.hand
    case Create(_, t) => k.phase.Running? && t !in s.place && k.active !in s.hand
    case Give(_, pos) =>
      k.phase.Running? && k.active in s.hand && s.hand[k.active].Wake? && 0 <= pos <= |Members(s, ReadyQ)|
    case Delete(_) => k.phase.Running? && k.active in s.hand && s.hand[k.active].Reap?
  }

  /** apitHandler: an idle or pinned thread is left alone, any other one yields. */
  function TickStep(s: State, c: int): State
    requires 0 <= c < |s.cores|
  {
    var k := s.cores[c];
    if IsIdle(s, k.active) || k.active in s.pinned then s
    else SetCore(s, c, k.(phase := Picking(Yield))).(pinned := s.pinned + {k.active})
  }

  function PickStep(s: State, c: int): State
    requires 0 <= c < |s.cores| && |s.idle| == |s.cores| && s.cores[c].phase.Picking?
  {
    var k := s.cores[c];
    var why := k.phase.why;
    if Members(s, ReadyQ) != [] then
      SetCore(Dequeue(s, ReadyQ, Chosen(c)), c, k.(phase := Picked(Members(s, ReadyQ)[0], why)))
    else if why == Yield then SetCore(s, c, k.(phase := Running))
    else if IsIdle(s, k.active) then s
    else SetCore(s, c, k.(phase := Picked(s.idle[c], why))).(place := s.place[s.idle[c] := Chosen(c)])
  }

  function InstallStep(s: State, c: int): State
    requires 0 <= c < |s.cores| && s.cores[c].phase.Picked?
  {
    var k := s.cores[c];
    var next := k.phase.next;
    SetCore(s, c, Core(next, k.stack, Installed(k.active, k.phase.why)))
      .(pinned := s.pinned + {next}, place := s.place[k.active := Leaving(c)][next := OnCore(c)])
  }

  function SwitchStep(s: State, c: int): State
    requires 0 <= c < |s.cores| && s.cores[c].phase.Installed?
  {
    var k := s.cores[c];
    SetCore(s, c, Core(k.active, k.active, Switched(k.phase.prev, k.phase.why)))
      .(pinned := s.pinned - {k.phase.prev, k.active})
  }

  function PublishStep(s: State, c: int, pos: int, stale: bool): State
    requires Enabled(s, Publish(c, pos, stale))
  {
    var k := s.cores[c];
    var prev := k.phase.prev;
    var s1 := SetCore(s, c, k.(phase := Running));
    if IsIdle(s, prev) then s1.(place := s1.place[prev := Parked(c)])
    else Enqueue(s1, Destination(k.phase.why, stale), pos, prev)
  }

  function Apply(s: State, e: Event): State
    requires Enabled(s, e)
  {
    var k := s.cores[e.c];
    match e
    case Tick(c) => TickStep(s, c)
    case Block(c, why) => SetCore(s, c, k.(phase := Picking(why))).(pinned := s.pinned + {k.active})
    case Pick(c) => PickStep(s, c)
    case Install(c) => InstallStep(s, c)
    case Switch(c) => SwitchStep(s, c)
    case Publish(c, pos, stale) => PublishStep(s, c, pos, stale)
    case Take(c, q) =>
      Dequeue(s, Waiters(q), InHand(k.active)).(hand := s.hand[k.active := Wake(Members(s, Waiters(q))[0])])
    case TakeZombie(c) =>
      Dequeue(s, Zombies, InHand(k.active)).(hand := s.hand[k.active := Reap(Members(s, Zombies)[0])])
    case Create(c, t) => s.(hand := s.hand[k.active := Wake(t)], place := s.place[t := InHand(k.active)])
    case Give(c, pos) => Enqueue(s, ReadyQ, pos, s.hand[k.active].t).(hand := s.hand - {k.active})
    case Delete(c) => s.(hand := s.hand - {k.active}, place := s.place[s.hand[k.active].t := Deleted])
  }
}

/** One core, runnable threads, one per process: what the tick handler does to run times. */
module FairTicks {
  import opened ReadyOrder

  datatype Thread = Thread(id: int, runTime: int)

  /** The running thread, the ready queue, and whether the running thread has no_preempt set. */
  datatype System = System(current: Thread, ready: seq<Thread>, pinned: bool)

  function RunTimes(l: seq<Thread>): (r: seq<int>)
    ensures |r| == |l| && forall i :: 0 <= i < |l| ==> r[i] == l[i].runTime
  {
    seq(|l|, i requires 0 <= i < |l| => l[i].runTime)
  }

  function Slot(l: seq<Thread>, x: Thread): int { Position(RunTimes(l), x.runTime) }

  function Queue(l: seq<Thread>, x: Thread): seq<Thread> { l[..Slot(l, x)] + [x] + l[Slot(l, x)..] }

  /** apitHandler: a pinned thread is left alone; any other is charged one tick and yields to the head of
      the ready queue. A yield that finds the queue empty returns to the caller with no_preempt still set. */
  function Tick(s: System): System {
    var charged := s.current.(runTime := s.current.runTime + 1);
    if s.pinned then s
    else if s.ready == [] then System(charged, [], true)
    else System(s.ready[0], Queue(s.ready[1..], charged), false)
  }

  function Ticks(s: System, n: nat): System
    decreases n
  {
    if n == 0 then s else Ticks(Tick(s), n - 1)
  }

  ghost predicate InOrder(l: seq<Thread>, i: int, j: int)
    requires 0 <= i < j < |l|
  {
    l[i].runTime <= l[j].runTime
  }

  ghost predicate Sorted(l: seq<Thread>) {
    forall i, j {:trigger InOrder(l, i, j)} :: 0 <= i < j < |l| ==> InOrder(l, i, j)
  }

  ghost predicate IdsDiffer(l: seq<Thread>, i: int, j: int)
    requires 0 <= i < j < |l|
  {
    l[i].id != l[j].id
  }

  ghost predicate DistinctIds(l: seq<Thread>) {
    forall i, j {:trigger IdsDiffer(l, i, j)} :: 0 <= i < j < |l| ==> IdsDiffer(l, i, j)
  }

  ghost predicate Distinct(s: System) { DistinctIds([s.current] + s.ready) }

  ghost predicate Good(s: System) { Sorted(s.ready) && Distinct(s) }

  lemma QueueAt(l: seq<Thread>, x: Thread, i: int)
    requires 0 <= i <= |l|
    ensures |Queue(l, x)| == |l| + 1
    ensures Queue(l, x)[i] == if i < Slot(l, x) then l[i] else if i == Slot(l, x) then x else l[i - 1]
  {
  }

  lemma QueueSorted(l: seq<Thread>, x: Thread)
    requires Sorted(l)
    ensures Sorted(Queue(l, x))
  {
    var p := Slot(l, x);
    forall i, j | 0 <= i < j < |Queue(l, x)| ensures InOrder(Queue(l, x), i, j) {
      QueueAt(l, x, i);
      QueueAt(l, x, j);
      if j < p { assert InOrder(l, i, j); }
      else if p < i { assert InOrder(l, i - 1, j - 1); }
      else if i < p < j { assert i == j - 1 || InOrder(l, i, j - 1); }
      else if i == p { assert p == j - 1 || InOrder(l, p, j - 1); }
    }
  }

  lemma QueueDiffers(l: seq<Thread>, y: Thread, x: Thread)
    requires DistinctIds([x, y] + l)
    ensures DistinctIds([y] + Queue(l, x))
  {
    var m, m' := [x, y] + l, [y] + Queue(l, x);
    var p := Slot(l, x);
    forall i, j | 0 <= i < j < |m'| ensures IdsDiffer(m', i, j) {
      var i0 := if i == 0 then 1 else if i - 1 < p then i + 1 else if i - 1 == p then 0 else i;
      var j0 := if j - 1 < p then j + 1 else if j - 1 == p then 0 else j;
      assert m'[i] == m[i0] && m'[j] == m[j0];
      assert if i0 < j0 then IdsDiffer(m, i0, j0) else IdsDiffer(m, j0, i0);
    }
  }

  lemma TailSorted(l: seq<Thread>)
    requires Sorted(l) && l != []
    ensures Sorted(l[1..])
  {
    forall i, j | 0 <= i < j < |l[1..]| ensures InOrder(l[1..], i, j) { assert InOrder(l, i + 1, j + 1); }
  }

  lemma TickDiffers(s: System)
    requires Distinct(s)
    ensures Distinct(Tick(s))
  {
    if !s.pinned && s.ready != [] {
      var x := s.current.(runTime := s.current.runTime + 1);
      ChargeDiffers(s, x);
      QueueDiffers(s.ready[1..], s.ready[0], x);
    }
  }

  lemma TickSorted(s: System)
    requires Sorted(s.ready)
    ensures Sorted(Tick(s).ready)
  {
    if !s.pinned && s.ready != [] {
      TailSorted(s.ready);
      QueueSorted(s.ready[1..], s.current.(runTime := s.current.runTime + 1));
    }
  }

  /** A tick keeps the queue sorted and the threads distinct. */
  lemma TickKeeps(s: System)
    requires Good(s)
    ensures Good(Tick(s))
  {
    TickDiffers(s);
    TickSorted(s);
  }

  lemma ChargeDiffers(s: System, x: Thread)
    requires s.ready != [] && Distinct(s) && x.id == s.current.id
    ensures DistinctIds([x, s.ready[0]] + s.ready[1..])
  {
    var m, m' := [s.current] + s.ready, [x, s.ready[0]] + s.ready[1..];
    forall i, j | 0 <= i < j < |m'| ensures IdsDiffer(m', i, j) {
      assert m'[i].id == m[i].id && m'[j].id == m[j].id && IdsDiffer(m, i, j);
    }
  }

  // ---------------------------------------------------------------- no starvation

  /** Ticks thread `x` can still take before its run time passes `k`. */
  function Credit(x: Thread, k: int): int { if x.runTime <= k then k + 1 - x.runTime else 0 }

  function Credits(l: seq<Thread>, id: int, k: int): int {
    if l == [] then 0 else (if l[0].id == id then 0 else Credit(l[0], k)) + Credits(l[1..], id, k)
  }

  /** All the ticks the threads other than `id` can take ahead of a thread with run time `k`. */
  function Ahead(s: System, id: int, k: int): int { Credit(s.current, k) + Credits(s.ready, id, k) }

  lemma {:induction false} CreditsAppend(l: seq<Thread>, m: seq<Thread>, id: int, k: int)
    ensures Credits(l + m, id, k) == Credits(l, id, k) + Credits(m, id, k)
  {
    if l == [] {
      assert l + m == m;
    } else {
      assert (l + m)[1..] == l[1..] + m;
      CreditsAppend(l[1..], m, id, k);
    }
  }

  lemma {:induction false} CreditsNonNegative(l: seq<Thread>, id: int, k: int)
    ensures 0 <= Credits(l, id, k)
  {
    if l != [] { CreditsNonNegative(l[1..], id, k); }
  }

  lemma CreditsQueue(l: seq<Thread>, x: Thread, id: int, k: int)
    requires x.id != id
    ensures Credits(Queue(l, x), id, k) == Credits(l, id, k) + Credit(x, k)
  {
    var p := Slot(l, x);
    assert l == l[..p] + l[p..];
    CreditsAppend(l[..p], l[p..], id, k);
    CreditsAppend(l[..p] + [x], l[p..], id, k);
    CreditsAppend(l[..p], [x], id, k);
    assert Credits([x], id, k) == Credit(x, k) + Credits([x][1..], id, k);
  }

  /** One tick uses up one tick of credit, unless the running thread had none left. */
  lemma TickSpends(s: System, id: int, k: int)
    requires !s.pinned && s.ready != [] && s.current.id != id && s.ready[0].id != id
    ensures Ahead(Tick(s), id, k) == Ahead(s, id, k) - if s.current.runTime <= k then 1 else 0
  {
    CreditsQueue(s.ready[1..], s.current.(runTime := s.current.runTime + 1), id, k);
  }

  lemma StillQueued(s: System, p: int)
    requires !s.pinned && 0 < p < |s.ready|
    ensures s.ready[p] in Tick(s).ready
  {
    var rest, x := s.ready[1..], s.current.(runTime := s.current.runTime + 1);
    assert rest[p - 1] == s.ready[p];
    QueueAt(rest, x, p - 1);
    QueueAt(rest, x, p);
    var q := Queue(rest, x);
    assert q[p - 1] == s.ready[p] || q[p] == s.ready[p];
  }

  /** What the wait for thread `t` may still cost, counting an over-charged running thread as one tick. */
  function Bound(s: System, t: Thread): int {
    Ahead(s, t.id, t.runTime) + if s.current.runTime <= t.runTime then 0 else 1
  }

  lemma BoundDrops(s: System, t: Thread, p: int)
    requires Good(s) && !s.pinned && 0 < p < |s.ready| && s.ready[p] == t
    ensures Bound(Tick(s), t) == Bound(s, t) - 1 && t in Tick(s).ready
    ensures Tick(s).current.runTime <= t.runTime
  {
    var m := [s.current] + s.ready;
    assert IdsDiffer(m, 0, p + 1) && IdsDiffer(m, 1, p + 1) && InOrder(s.ready, 0, p);
    StillQueued(s, p);
    TickSpends(s, t.id, t.runTime);
  }

  lemma BoundPositive(s: System, t: Thread)
    ensures 1 <= Bound(s, t) <= 1 + Ahead(s, t.id, t.runTime)
  {
    CreditsNonNegative(s.ready, t.id, t.runTime);
  }

  /** Either the thread is next, or one tick brings it one closer. */
  lemma TickAdvances(s: System, t: Thread)
    requires Good(s) && !s.pinned && t in s.ready && s.ready[0] != t
    ensures Good(Tick(s)) && !Tick(s).pinned && t in Tick(s).ready && Bound(Tick(s), t) == Bound(s, t) - 1
  {
    var p :| 0 <= p < |s.ready| && s.ready[p] == t;
    TickKeeps(s);
    BoundDrops(s, t, p);
  }

  lemma TicksFrom(s: System, n: nat)
    ensures Ticks(s, n + 1) == Ticks(Tick(s), n) && Ticks(s, 0) == s
  {
  }

  lemma {:induction false} DispatchedWithin(s: System, t: Thread, b: int) returns (n: nat)
    requires Good(s) && !s.pinned && t in s.ready && Bound(s, t) <= b
    ensures 1 <= n <= b && Ticks(s, n).current == t
    decreases b
  {
    BoundPositive(s, t);
    if s.ready[0] == t {
      n := 1;
      TicksFrom(s, 0);
    } else {
      TickAdvances(s, t);
      n := DispatchedWithin(Tick(s), t, b - 1);
      TicksFrom(s, n);
      n := n + 1;
    }
  }

  /** A pinned thread is never preempted. */
  lemma {:induction false} PinnedStays(s: System, n: nat)
    requires s.pinned
    ensures Ticks(s, n) == s
    decreases n
  {
    if n > 0 { PinnedStays(s, n - 1); }
  }

  /** Ticks alone run thread `t` within `b` ticks. */
  ghost predicate Dispatched(s: System, t: Thread, b: int) {
    exists n: nat :: 1 <= n <= b && Ticks(s, n).current == t
  }

  /** A queued thread runs within 1 + Ahead ticks, its run time untouched until then, exactly when the
      running thread is not pinned; if it is, no number of ticks dispatches anybody. */
  lemma NoStarvationWhen(s: System, t: Thread)
    requires Good(s) && t in s.ready
    ensures Dispatched(s, t, 1 + Ahead(s, t.id, t.runTime)) <==> !s.pinned
    ensures s.pinned ==> forall n: nat :: Ticks(s, n).current == s.current != t
  {
    if s.pinned {
      var p :| 0 <= p < |s.ready| && s.ready[p] == t;
      var m := [s.current] + s.ready;
      assert IdsDiffer(m, 0, p + 1);
      forall n: nat ensures Ticks(s, n) == s { PinnedStays(s, n); }
    } else {
      BoundPositive(s, t);
      var n := DispatchedWithin(s, t, Bound(s, t));
      assert Ticks(s, n).current == t;
    }
  }

  // ---------------------------------------------------------------- arrivals

  /** A tick, or another thread made ready. */
  datatype Event = TimerTick | Arrive(t: Thread)

  function Step(s: System, e: Event): System {
    match e
    case TimerTick => Tick(s)
    case Arrive(t) => s.(ready := Queue(s.ready, t))
  }

  function After(s: System, events: seq<Event>): System {
    if events == [] then s else Step(After(s, events[..|events| - 1]), events[|events| - 1])
  }

  /** Arrivals are threads that are not there yet. */
  ghost predicate Legal(s: System, events: seq<Event>) {
    forall i {:trigger events[i]} :: 0 <= i < |events| && events[i].Arrive? ==>
      Absent(After(s, events[..i]), events[i].t)
  }

  ghost predicate Absent(s: System, t: Thread) { DistinctIds([t, s.current] + s.ready) }

  /** The `i`-th event is a tick that finds nobody ready. */
  ghost predicate Lonely(s: System, events: seq<Event>, i: int)
    requires 0 <= i < |events|
  {
    events[i] == TimerTick && After(s, events[..i]).ready == []
  }

  lemma ArriveKeeps(s: System, t: Thread)
    requires Good(s) && Absent(s, t)
    ensures Good(Step(s, Arrive(t)))
  {
    QueueSorted(s.ready, t);
    QueueDiffers(s.ready, s.current, t);
  }

  lemma PrefixLegal(s: System, events: seq<Event>)
    requires Legal(s, events) && events != []
    ensures Legal(s, events[..|events| - 1])
  {
    var front := events[..|events| - 1];
    forall i | 0 <= i < |front| && front[i].Arrive? ensures Absent(After(s, front[..i]), front[i].t) {
      assert front[i] == events[i] && front[..i] == events[..i];
    }
  }

  /** Some tick of the run found nobody ready. */
  ghost predicate SomeLonely(s: System, events: seq<Event>) {
    exists i :: 0 <= i < |events| && Lonely(s, events, i)
  }

  lemma StepKeeps(s: System, e: Event)
    requires Good(s) && (e.Arrive? ==> Absent(s, e.t))
    ensures Good(Step(s, e))
  {
    if e.Arrive? { ArriveKeeps(s, e.t); } else { TickKeeps(s); }
  }

  /** One more event adds at most itself to the lonely ticks. */
  lemma LonelyGrows(s: System, events: seq<Event>)
    requires events != []
    ensures var k := |events| - 1;
            SomeLonely(s, events) <==> SomeLonely(s, events[..k]) || Lonely(s, events, k)
  {
    var k := |events| - 1;
    var front := events[..k];
    forall i | 0 <= i < k ensures Lonely(s, events, i) <==> Lonely(s, front, i) {
      assert front[..i] == events[..i];
    }
    if SomeLonely(s, front) {
      var i :| 0 <= i < |front| && Lonely(s, front, i);
      assert Lonely(s, events, i);
    }
  }

  /** Over any run of ticks and arrivals, the running thread is pinned exactly when some tick found nobody ready. */
  lemma {:induction false} PinnedWhen(s: System, events: seq<Event>)
    requires Good(s) && !s.pinned && Legal(s, events)
    ensures Good(After(s, events))
    ensures After(s, events).pinned <==> SomeLonely(s, events)
  {
    if events != [] {
      var k := |events| - 1;
      PrefixLegal(s, events);
      PinnedWhen(s, events[..k]);
      LonelyGrows(s, events);
      assert events[k].Arrive? ==> Absent(After(s, events[..k]), events[k].t);
      StepKeeps(After(s, events[..k]), events[k]);
    }
  }

  /** From any unpinned start, a thread queued after a run of ticks and arrivals is dispatched by ticks alone,
      within the bound, exactly when no tick of the run found the ready queue empty. */
  lemma StarvesWhen(s: System, events: seq<Event>, t: Thread)
    requires Good(s) && !s.pinned && Legal(s, events) && t in After(s, events).ready
    ensures var s' := After(s, events);
            Dispatched(s', t, 1 + Ahead(s', t.id, t.runTime)) <==> !SomeLonely(s, events)
  {
    PinnedWhen(s, events);
    NoStarvationWhen(After(s, events), t);
  }

  /** One thread alone is ticked, then another is scheduled: the newcomer is never dispatched. */
  lemma LonelyExample(n: nat)
    ensures var s := After(System(Thread(1, 0), [], false), [TimerTick, Arrive(Thread(2, 0))]);
            s == System(Thread(1, 1), [Thread(2, 0)], true) && Ticks(s, n).current == Thread(1, 1)
  {
    var s0 := System(Thread(1, 0), [], false);
    var events := [TimerTick, Arrive(Thread(2, 0))];
    assert events[..1] == [TimerTick] && events[..1][..0] == [];
    assert After(s0, events[..1]) == Step(After(s0, events[..1][..0]), TimerTick);
    assert After(s0, events) == Step(After(s0, events[..1]), Arrive(Thread(2, 0)));
    PinnedStays(System(Thread(1, 1), [Thread(2, 0)], true), n);
  }

  // ---------------------------------------------------------------- fairness

  /** The running thread is at level `m` and everyone waiting is at `m` or one tick ahead. */
  ghost predicate Level(s: System, m: int) {
    s.current.runTime == m && forall i :: 0 <= i < |s.ready| ==> m <= s.ready[i].runTime <= m + 1
  }

  lemma TickKeepsLevel(s: System, m: int)
    requires Good(s) && Level(s, m)
    ensures Level(Tick(s), Tick(s).current.runTime)
  {
    if !s.pinned && s.ready != [] {
      var rest, x := s.ready[1..], s.current.(runTime := m + 1);
      forall j | 0 <= j < |rest| ensures s.ready[0].runTime <= rest[j].runTime {
        assert InOrder(s.ready, 0, j + 1);
      }
      forall i | 0 <= i < |Tick(s).ready|
        ensures s.ready[0].runTime <= Tick(s).ready[i].runTime <= s.ready[0].runTime + 1
      {
        QueueAt(rest, x, i);
      }
    }
  }

  /** Threads that start level never drift more than one tick apart, over any number of ticks. */
  lemma {:induction false} NeverMoreThanOneApart(s: System, m: int, n: nat)
    requires Good(s) && Level(s, m)
    ensures Good(Ticks(s, n)) && Level(Ticks(s, n), Ticks(s, n).current.runTime)
    decreases n
  {
    if n > 0 {
      TickKeeps(s);
      TickKeepsLevel(s, m);
      NeverMoreThanOneApart(Tick(s), Tick(s).current.runTime, n - 1);
    }
  }
}

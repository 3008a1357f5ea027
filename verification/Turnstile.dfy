/** The one-shot Barrier: the last arrival drops one token into a semaphore, and everyone else
    passes it along. */
module Turnstile {
  import opened Tally
  import opened Semaphore

  datatype Point =
    | Opener     // took the count to zero, sem.up to come
    | Arrived    // sem.down to come
    | Blocked    // waiting in sem.down
    | Holder     // past sem.down, sem.up to come

  datatype State = State(total: nat, count: int, sem: Sem, at: map<Tid, Point>, returned: set<Tid>)

  datatype Event = Arrive(t: Tid) | Take(t: Tid) | Pass(t: Tid)

  /** Each of the `total` threads calls sync once; a further call would panic. */
  predicate Enabled(s: State, e: Event) {
    match e
    case Arrive(t) => t !in s.at && t !in s.returned && 0 < s.count
    case Take(t) => t in s.at && s.at[t] == Arrived
    case Pass(t) => t in s.at && (s.at[t] == Opener || s.at[t] == Holder)
  }

  function Apply(s: State, e: Event): State
    requires Enabled(s, e)
  {
    match e
    case Arrive(t) => s.(count := s.count - 1, at := s.at[t := if s.count - 1 == 0 then Opener else Arrived])
    case Take(t) => s.(sem := Down(s.sem, t), at := s.at[t := if Available(s.sem) then Holder else Blocked])
    case Pass(t) => s.(sem := Up(s.sem), at := HandTo(s.at, s.sem, Holder) - {t}, returned := s.returned + {t})
  }

  const TOKEN := {Opener, Holder}
  const WAITING := {Blocked}
  const ARRIVED := {Arrived}

  /** One token exists once everyone has arrived, and none before. */
  ghost predicate Inv(s: State) {
    && 0 <= s.count <= s.total
    && s.sem.count + Num(s.at, TOKEN) == (if s.count == 0 && 0 < s.total then 1 else 0)
    && NoIdleUnit(s.sem) && Waits(s.at, s.sem.waiting, WAITING)
    && (s.returned != {} ==> s.count == 0)
    && s.count + |s.at.Keys| + |s.returned| == s.total
    && s.at.Keys !! s.returned
  }

  lemma ArriveKeeps(s: State, t: Tid)
    requires Inv(s) && Enabled(s, Arrive(t))
    ensures Inv(Apply(s, Arrive(t)))
  {
    var s' := Apply(s, Arrive(t));
    NumAdd(s.at, t, s'.at[t], TOKEN);
    WaitsKept(s.at, s.sem.waiting, WAITING, t, s'.at[t]);
    assert s'.at.Keys == s.at.Keys + {t};
  }

  lemma TakeKeeps(s: State, t: Tid)
    requires Inv(s) && Enabled(s, Take(t))
    ensures Inv(Apply(s, Take(t)))
  {
    var s' := Apply(s, Take(t));
    NumMove(s.at, t, s'.at[t], TOKEN);
    if Available(s.sem) { WaitsKept(s.at, s.sem.waiting, WAITING, t, s'.at[t]); }
    else { WaitsGrow(s.at, s.sem.waiting, WAITING, t, s'.at[t]); }
    assert s'.at.Keys == s.at.Keys;
  }

  /** Passing the token on wakes at most the longest waiter. */
  lemma WakeKeeps(s: State, t: Tid)
    requires Inv(s) && Enabled(s, Pass(t))
    ensures var at1 := HandTo(s.at, s.sem, Holder);
            && at1.Keys == s.at.Keys && at1[t] == s.at[t] && Waits(at1, Up(s.sem).waiting, WAITING)
            && Num(at1, TOKEN) == Num(s.at, TOKEN) + (if s.sem.waiting != [] then 1 else 0)
  {
    if s.sem.waiting != [] {
      WaitsShrink(s.at, s.sem.waiting, WAITING, Holder);
      NumMove(s.at, s.sem.waiting[0], Holder, TOKEN);
    }
  }

  lemma PassKeeps(s: State, t: Tid)
    requires Inv(s) && Enabled(s, Pass(t))
    ensures Inv(Apply(s, Pass(t)))
  {
    var s', at1 := Apply(s, Pass(t)), HandTo(s.at, s.sem, Holder);
    Present(s.at, t, TOKEN);
    WakeKeeps(s, t);
    NumDrop(at1, t, TOKEN);
    WaitsDropped(at1, s'.sem.waiting, WAITING, t);
    assert s'.at.Keys == s.at.Keys - {t};
  }

  lemma StepKeeps(s: State, e: Event)
    requires Inv(s) && Enabled(s, e)
    ensures Inv(Apply(s, e))
  {
    match e
    case Arrive(t) => ArriveKeeps(s, t);
    case Take(t) => TakeKeeps(s, t);
    case Pass(t) => PassKeeps(s, t);
  }

  function Init(total: nat): State { State(total, total, Sem(0, []), map[], {}) }

  ghost predicate Run(states: seq<State>, total: nat, events: seq<Event>) {
    && |states| == |events| + 1 && states[0] == Init(total)
    && forall i {:trigger events[i]} :: 0 <= i < |events| ==>
         Enabled(states[i], events[i]) && states[i + 1] == Apply(states[i], events[i])
  }

  lemma {:induction false} RunKeeps(states: seq<State>, total: nat, events: seq<Event>, i: int)
    requires Run(states, total, events) && 0 <= i <= |events|
    ensures Inv(states[i]) && states[i].total == total
    decreases i
  {
    if i == 0 {
      NumAtMost(states[0].at, TOKEN);
    } else {
      RunKeeps(states, total, events, i - 1);
      assert Enabled(states[i - 1], events[i - 1]);
      StepKeeps(states[i - 1], events[i - 1]);
    }
  }

  /** No thread gets past the barrier before all of them have arrived. */
  lemma NobodyPassesEarly(s: State, t: Tid)
    requires Inv(s) && Enabled(s, Pass(t))
    ensures s.count == 0 && |s.at.Keys| + |s.returned| == s.total
  {
    Present(s.at, t, TOKEN);
  }

  /** Once all have arrived nothing is ever stuck: while anybody is inside, somebody can move. */
  lemma NeverStuck(s: State, t0: Tid) returns (e: Event)
    requires Inv(s) && s.count == 0 && t0 in s.at
    ensures Enabled(s, e)
  {
    if 0 < Num(s.at, TOKEN) {
      var t := Witness(s.at, TOKEN);
      e := Pass(t);
    } else {
      assert s.at[t0] !in TOKEN by { if s.at[t0] in TOKEN { Present(s.at, t0, TOKEN); } }
      assert s.at[t0] in WAITING ==> Listed(s.sem.waiting, t0);
      assert s.total > 0 by { assert t0 in s.at.Keys; }
      e := Take(t0);
    }
  }

  /** Steps still to come, at most. */
  function Measure(s: State): int {
    4 * s.count + 3 * Num(s.at, ARRIVED) + 2 * Num(s.at, WAITING) + Num(s.at, TOKEN)
  }

  lemma ArriveDescends(s: State, t: Tid)
    requires Inv(s) && Enabled(s, Arrive(t))
    ensures Measure(Apply(s, Arrive(t))) < Measure(s)
  {
    var s' := Apply(s, Arrive(t));
    NumAdd(s.at, t, s'.at[t], ARRIVED);
    NumAdd(s.at, t, s'.at[t], WAITING);
    NumAdd(s.at, t, s'.at[t], TOKEN);
  }

  lemma TakeDescends(s: State, t: Tid)
    requires Inv(s) && Enabled(s, Take(t))
    ensures Measure(Apply(s, Take(t))) < Measure(s)
  {
    var s' := Apply(s, Take(t));
    NumMove(s.at, t, s'.at[t], ARRIVED);
    NumMove(s.at, t, s'.at[t], WAITING);
    NumMove(s.at, t, s'.at[t], TOKEN);
  }

  /** The woken thread stops waiting; nobody's arrival is undone. */
  lemma WakeMoves(s: State, t: Tid)
    requires Inv(s) && Enabled(s, Pass(t))
    ensures var at1 := HandTo(s.at, s.sem, Holder);
            && Num(at1, ARRIVED) == Num(s.at, ARRIVED)
            && Num(at1, WAITING) == Num(s.at, WAITING) - (if s.sem.waiting != [] then 1 else 0)
  {
    if s.sem.waiting != [] {
      var w := s.sem.waiting[0];
      assert Waiter(s.at, s.sem.waiting, WAITING, 0);
      NumMove(s.at, w, Holder, ARRIVED);
      NumMove(s.at, w, Holder, WAITING);
    }
  }

  lemma PassDescends(s: State, t: Tid)
    requires Inv(s) && Enabled(s, Pass(t))
    ensures Measure(Apply(s, Pass(t))) < Measure(s)
  {
    var at1 := HandTo(s.at, s.sem, Holder);
    WakeKeeps(s, t);
    WakeMoves(s, t);
    NumDrop(at1, t, ARRIVED);
    NumDrop(at1, t, WAITING);
    NumDrop(at1, t, TOKEN);
  }

  /** Every step brings the end closer, so every run of `total` threads has at most 4 * total steps. */
  lemma StepDescends(s: State, e: Event)
    requires Inv(s) && Enabled(s, e)
    ensures 0 <= Measure(Apply(s, e)) < Measure(s)
  {
    match e
    case Arrive(t) => ArriveDescends(s, t);
    case Take(t) => TakeDescends(s, t);
    case Pass(t) => PassDescends(s, t);
    StepKeeps(s, e);
  }

  lemma MeasureOfInit(total: nat)
    ensures Measure(Init(total)) == 4 * total
  {
    var at: map<Tid, Point> := map[];
    NumAtMost(at, ARRIVED);
    NumAtMost(at, WAITING);
    NumAtMost(at, TOKEN);
  }

  lemma {:induction false} RunsAreFinite(states: seq<State>, total: nat, events: seq<Event>, i: int)
    requires Run(states, total, events) && 0 <= i <= |events|
    ensures 0 <= Measure(states[i]) <= 4 * total - i
    decreases i
  {
    if i == 0 {
      MeasureOfInit(total);
    } else {
      RunsAreFinite(states, total, events, i - 1);
      RunDescends(states, total, events, i - 1);
    }
  }

  lemma RunDescends(states: seq<State>, total: nat, events: seq<Event>, i: int)
    requires Run(states, total, events) && 0 <= i < |events|
    ensures 0 <= Measure(states[i + 1]) < Measure(states[i])
  {
    RunKeeps(states, total, events, i);
    assert Enabled(states[i], events[i]);
    StepDescends(states[i], events[i]);
  }
}

/** Future::set once and Future::get by any number of threads, under any interleaving. */
module Future {
  import opened Tally
  import opened Semaphore

  datatype Point =
    | Looking    // about to test isReady
    | Wanting    // saw it false, go.down to come
    | Blocked    // waiting in go.down
    | Holder     // past go.down, go.up to come
    | Reading    // about to read the value

  /** How far `set` has got: nothing, value stored, isReady stored, semaphore raised. */
  datatype Stage = Unset | Stored | Ready | Raised

  datatype State<T> = State(
    stage: Stage, cell: T, go: Sem, at: map<Tid, Point>,
    given: seq<T>,             // the argument of set, once called
    results: map<Tid, T>       // what finished gets returned
  )

  datatype Event<T> =
    | Set(v: T) | SetReady | Raise
    | Call(t: Tid) | Look(t: Tid) | Take(t: Tid) | Pass(t: Tid) | Return(t: Tid)

  predicate Enabled<T>(s: State<T>, e: Event<T>) {
    match e
    case Set(_) => s.stage == Unset
    case SetReady => s.stage == Stored
    case Raise => s.stage == Ready
    case Call(t) => t !in s.at && t !in s.results
    case Look(t) => t in s.at && s.at[t] == Looking
    case Take(t) => t in s.at && s.at[t] == Wanting
    case Pass(t) => t in s.at && s.at[t] == Holder
    case Return(t) => t in s.at && s.at[t] == Reading
  }

  predicate IsReady<T>(s: State<T>) { s.stage == Ready || s.stage == Raised }

  function Apply<T>(s: State<T>, e: Event<T>): State<T>
    requires Enabled(s, e)
  {
    match e
    case Set(v) => s.(stage := Stored, cell := v, given := s.given + [v])
    case SetReady => s.(stage := Ready)
    case Raise => s.(stage := Raised, go := Up(s.go), at := HandTo(s.at, s.go, Holder))
    case Call(t) => s.(at := s.at[t := Looking])
    case Look(t) => s.(at := s.at[t := if IsReady(s) then Reading else Wanting])
    case Take(t) => s.(go := Down(s.go, t), at := s.at[t := if Available(s.go) then Holder else Blocked])
    case Pass(t) => s.(go := Up(s.go), at := HandTo(s.at, s.go, Holder)[t := Reading])
    case Return(t) => s.(at := s.at - {t}, results := s.results[t := s.cell])
  }

  const TOKEN := {Holder}
  const WAITING := {Blocked}

  /** Nobody is past the wait unless the value is in place. */
  ghost predicate ReaderOk<T>(s: State<T>, t: Tid)
    requires t in s.at
  {
    s.at[t] == Reading || s.at[t] == Holder ==> s.stage != Unset
  }

  ghost predicate ResultOk<T>(s: State<T>, t: Tid)
    requires t in s.results
  {
    s.results[t] == s.cell
  }

  ghost predicate Inv<T>(s: State<T>) {
    && s.given == (if s.stage == Unset then [] else [s.cell])
    && s.go.count + Num(s.at, TOKEN) == (if s.stage == Raised then 1 else 0)
    && NoIdleUnit(s.go) && Waits(s.at, s.go.waiting, WAITING)
    && (forall t {:trigger ReaderOk(s, t)} :: t in s.at ==> ReaderOk(s, t))
    && (forall t {:trigger ResultOk(s, t)} :: t in s.results ==> ResultOk(s, t))
    && (s.stage == Unset ==> s.results == map[])
  }

  lemma ReadersKept<T>(s: State<T>, s': State<T>)
    requires Inv(s) && (s.stage == Unset || s'.cell == s.cell) && (s'.stage == Unset ==> s.stage == Unset)
    requires forall t :: t in s'.at ==>
               || (t in s.at && s'.at[t] == s.at[t])
               || s'.stage != Unset || (s'.at[t] != Reading && s'.at[t] != Holder)
    requires forall t :: t in s'.results ==>
               (t in s.results && s'.results[t] == s.results[t]) || (s'.stage != Unset && s'.results[t] == s'.cell)
    ensures forall t {:trigger ReaderOk(s', t)} :: t in s'.at ==> ReaderOk(s', t)
    ensures forall t {:trigger ResultOk(s', t)} :: t in s'.results ==> ResultOk(s', t)
  {
    forall t | t in s'.at ensures ReaderOk(s', t) { if t in s.at { assert ReaderOk(s, t); } }
    forall t | t in s'.results ensures ResultOk(s', t) { if t in s.results { assert ResultOk(s, t); } }
  }

  /** Raising the semaphore wakes at most the longest waiter. */
  lemma WakeKeeps<T>(s: State<T>)
    requires Inv(s)
    ensures var at1 := HandTo(s.at, s.go, Holder);
            && at1.Keys == s.at.Keys && Waits(at1, Up(s.go).waiting, WAITING)
            && Num(at1, TOKEN) == Num(s.at, TOKEN) + (if s.go.waiting != [] then 1 else 0)
            && forall t :: t in at1 && s.at[t] != Blocked ==> at1[t] == s.at[t]
  {
    if s.go.waiting != [] {
      WaitsShrink(s.at, s.go.waiting, WAITING, Holder);
      NumMove(s.at, s.go.waiting[0], Holder, TOKEN);
    }
  }

  lemma PassKeeps<T>(s: State<T>, t: Tid)
    requires Inv(s) && Enabled(s, Pass(t))
    ensures Inv(Apply(s, Pass(t)))
  {
    var s', at1 := Apply(s, Pass(t)), HandTo(s.at, s.go, Holder);
    Present(s.at, t, TOKEN);
    assert ReaderOk(s, t);
    WakeKeeps(s);
    NumMove(at1, t, Reading, TOKEN);
    WaitsKept(at1, s'.go.waiting, WAITING, t, Reading);
    ReadersKept(s, s');
  }

  lemma TakeKeeps<T>(s: State<T>, t: Tid)
    requires Inv(s) && Enabled(s, Take(t))
    ensures Inv(Apply(s, Take(t)))
  {
    var s' := Apply(s, Take(t));
    NumMove(s.at, t, s'.at[t], TOKEN);
    if Available(s.go) { WaitsKept(s.at, s.go.waiting, WAITING, t, s'.at[t]); }
    else { WaitsGrow(s.at, s.go.waiting, WAITING, t, s'.at[t]); }
    ReadersKept(s, s');
  }

  lemma StepKeeps<T>(s: State<T>, e: Event<T>)
    requires Inv(s) && Enabled(s, e)
    ensures Inv(Apply(s, e))
  {
    var s' := Apply(s, e);
    match e
    case Set(v) => SetKeeps(s, v);
    case SetReady => ReadersKept(s, s');
    case Raise => WakeKeeps(s); ReadersKept(s, s');
    case Call(t) =>
      NumAdd(s.at, t, Looking, TOKEN);
      WaitsKept(s.at, s.go.waiting, WAITING, t, Looking);
      ReadersKept(s, s');
    case Look(t) =>
      NumMove(s.at, t, s'.at[t], TOKEN);
      WaitsKept(s.at, s.go.waiting, WAITING, t, s'.at[t]);
      ReadersKept(s, s');
    case Take(t) => TakeKeeps(s, t);
    case Pass(t) => PassKeeps(s, t);
    case Return(t) =>
      NumDrop(s.at, t, TOKEN);
      WaitsDropped(s.at, s.go.waiting, WAITING, t);
      assert ReaderOk(s, t);
      ReadersKept(s, s');
  }

  lemma SetKeeps<T>(s: State<T>, v: T)
    requires Inv(s) && s.stage == Unset
    ensures Inv(Apply(s, Set(v)))
  {
    var s' := Apply(s, Set(v));
    forall t | t in s'.at ensures ReaderOk(s', t) { assert ReaderOk(s, t); }
  }

  function Init<T>(initial: T): State<T> { State(Unset, initial, Sem(0, []), map[], [], map[]) }

  ghost predicate Run<T>(states: seq<State<T>>, events: seq<Event<T>>) {
    && |states| == |events| + 1 && states[0] == Init(states[0].cell)
    && forall i {:trigger events[i]} :: 0 <= i < |events| ==>
         Enabled(states[i], events[i]) && states[i + 1] == Apply(states[i], events[i])
  }

  /** Every get that returns yields the one value that was set, by whichever path it went. */
  lemma {:induction false} GetsYieldTheValue<T>(states: seq<State<T>>, events: seq<Event<T>>, i: int)
    requires Run(states, events) && 0 <= i <= |events|
    ensures Inv(states[i])
    ensures forall t :: t in states[i].results ==> states[i].given == [states[i].results[t]]
    decreases i
  {
    if i == 0 {
      NumAtMost(states[0].at, TOKEN);
    } else {
      GetsYieldTheValue(states, events, i - 1);
      assert Enabled(states[i - 1], events[i - 1]);
      StepKeeps(states[i - 1], events[i - 1]);
    }
    forall t | t in states[i].results ensures states[i].given == [states[i].results[t]] {
      assert ResultOk(states[i], t);
    }
  }

  /** Once set has finished, a thread inside get can always be moved on by somebody. */
  lemma NeverStuck<T>(s: State<T>, t0: Tid) returns (t: Tid)
    requires Inv(s) && s.stage == Raised && t0 in s.at
    ensures Enabled(s, Look(t)) || Enabled(s, Take(t)) || Enabled(s, Pass(t)) || Enabled(s, Return(t))
  {
    if 0 < Num(s.at, TOKEN) {
      t := Witness(s.at, TOKEN);
    } else {
      assert s.at[t0] in WAITING ==> Listed(s.go.waiting, t0);
      t := t0;
    }
  }

  /** Own steps a thread still needs, once the semaphore was raised. */
  function Weight(p: Point): nat {
    match p
    case Reading => 1
    case Looking => 2
    case Holder => 2
    case Blocked => 2
    case Wanting => 3
  }

  /** The step is one of thread `t`. */
  predicate Of<T>(e: Event<T>, t: Tid) { e == Look(t) || e == Take(t) || e == Pass(t) || e == Return(t) }

  /** Once set has finished, each step of a thread inside get brings it closer to its return and no step of
      anybody else moves it away: it returns within three steps of its own. */
  lemma OwnStepsCount<T>(s: State<T>, e: Event<T>, t: Tid)
    requires Inv(s) && Enabled(s, e) && s.stage == Raised && t in s.at
    ensures var s' := Apply(s, e);
            && s'.stage == Raised
            && (t !in s'.at ==> e == Return(t) && t in s'.results)
            && (t in s'.at ==> Weight(s'.at[t]) <= Weight(s.at[t]) - if Of(e, t) then 1 else 0)
  {
    assert s.go.waiting != [] ==> Waiter(s.at, s.go.waiting, WAITING, 0);
  }

  /** The steps of set: none is skipped, and afterwards the value is stored, isReady is set and the semaphore raised. */
  lemma SetAdvances<T>(s: State<T>, v: T)
    requires Inv(s) && s.stage == Unset
    ensures var s1 := Apply(s, Set(v));
            && Enabled(s1, SetReady) && !IsReady(s1) && s1.cell == v && s1.given == [v]
            && var s2 := Apply(s1, SetReady);
            && Enabled(s2, Raise) && IsReady(s2) && s2.cell == v
            && var s3 := Apply(s2, Raise);
               s3.stage == Raised && s3.cell == v && s3.go == Up(s.go)
  {
  }

  /** A call of get puts the thread in front of the test. */
  lemma CallEnters<T>(s: State<T>, t: Tid)
    requires Enabled(s, Call(t))
    ensures t in Apply(s, Call(t)).at && Apply(s, Call(t)).at[t] == Looking
  {
  }

  /** Once isReady is set, a thread that has still to test it reads the value next and never touches the semaphore. */
  lemma LookerCounts<T>(s: State<T>, e: Event<T>, t: Tid)
    requires Inv(s) && Enabled(s, e) && IsReady(s) && t in s.at && (s.at[t] == Looking || s.at[t] == Reading)
    ensures var s' := Apply(s, e);
            && IsReady(s')
            && (t !in s'.at ==> e == Return(t) && t in s'.results)
            && (t in s'.at ==> (s'.at[t] == Looking || s'.at[t] == Reading) &&
                               Weight(s'.at[t]) <= Weight(s.at[t]) - if Of(e, t) then 1 else 0)
  {
    assert s.go.waiting != [] ==> Waiter(s.at, s.go.waiting, WAITING, 0);
  }

  ghost predicate RunFrom<T>(states: seq<State<T>>, events: seq<Event<T>>) {
    && |states| == |events| + 1
    && forall i {:trigger events[i]} :: 0 <= i < |events| ==>
         Enabled(states[i], events[i]) && states[i + 1] == Apply(states[i], events[i])
  }

  /** The steps thread `t` takes among the first `i`. */
  ghost function OwnSteps<T>(events: seq<Event<T>>, t: Tid, i: int): nat
    requires 0 <= i <= |events|
    decreases i
  {
    if i == 0 then 0 else OwnSteps(events, t, i - 1) + if Of(events[i - 1], t) then 1 else 0
  }

  /** In every run from a raised state, a thread that was inside get has returned or taken fewer than three steps. */
  lemma {:induction false} ReturnsWithinThree<T>(states: seq<State<T>>, events: seq<Event<T>>, t: Tid, i: int)
    requires RunFrom(states, events) && Inv(states[0]) && states[0].stage == Raised && t in states[0].at
    requires 0 <= i <= |events|
    ensures Inv(states[i]) && states[i].stage == Raised
    ensures t in states[i].results || (t in states[i].at && OwnSteps(events, t, i) + Weight(states[i].at[t]) <= 3)
    decreases i
  {
    if i > 0 {
      ReturnsWithinThree(states, events, t, i - 1);
      var s, e := states[i - 1], events[i - 1];
      assert Enabled(s, e);
      StepKeeps(s, e);
      if t in s.results {
        assert t in states[i].results;
      } else {
        OwnStepsCount(s, e, t);
      }
    }
  }

  /** In every run from a state with isReady set, a thread that had still to test it has returned or taken fewer than
      two steps. */
  lemma {:induction false} LooksReturnWithinTwo<T>(states: seq<State<T>>, events: seq<Event<T>>, t: Tid, i: int)
    requires RunFrom(states, events) && Inv(states[0]) && IsReady(states[0])
    requires t in states[0].at && states[0].at[t] == Looking && 0 <= i <= |events|
    ensures Inv(states[i]) && IsReady(states[i])
    ensures t in states[i].results ||
            (t in states[i].at && (states[i].at[t] == Looking || states[i].at[t] == Reading) &&
             OwnSteps(events, t, i) + Weight(states[i].at[t]) <= 2)
    decreases i
  {
    if i > 0 {
      LooksReturnWithinTwo(states, events, t, i - 1);
      var s, e := states[i - 1], events[i - 1];
      assert Enabled(s, e);
      StepKeeps(s, e);
      if t in s.results {
        assert t in states[i].results;
      } else {
        LookerCounts(s, e, t);
      }
    }
  }
}

/** The bounded buffer never overruns, never underruns, and hands values over in order. */
module BufferSafety {
  import opened Tally
  import opened Semaphore
  import opened BoundedBuffer

  /** Each put that reaches the ring finds a free slot and each get finds an item. */
  lemma AlwaysSafe<T>(s: State<T>, e: Event<T>)
    requires Inv(s) && Enabled(s, e)
    ensures Safe(s, e)
  {
    match e
    case Write(t) =>
      Present(s.at, t, SLOTS);
      assert HasArgument(s, t);
      RingPut(s.data, s.head, s.n, s.val[t]);
    case Read(t) => Present(s.at, t, ITEMS);
    case _ =>
  }

  /** How the counted claims change when thread `t` moves to `p`. */
  ghost predicate Shift(at: map<Tid, Point>, at': map<Tid, Point>, p: Point, p': Point) {
    && Num(at', SLOTS) == Num(at, SLOTS) - One(p, SLOTS) + One(p', SLOTS)
    && Num(at', ITEMS) == Num(at, ITEMS) - One(p, ITEMS) + One(p', ITEMS)
    && Num(at', TAKEN) == Num(at, TAKEN) - One(p, TAKEN) + One(p', TAKEN)
    && Num(at', PUT) == Num(at, PUT) - One(p, PUT) + One(p', PUT)
    && Num(at', LOCKED) == Num(at, LOCKED) - One(p, LOCKED) + One(p', LOCKED)
  }

  lemma Moved(at: map<Tid, Point>, t: Tid, p: Point)
    requires t in at
    ensures Shift(at, at[t := p], at[t], p)
  {
    NumMove(at, t, p, SLOTS);
    NumMove(at, t, p, ITEMS);
    NumMove(at, t, p, TAKEN);
    NumMove(at, t, p, PUT);
    NumMove(at, t, p, LOCKED);
  }

  /** A thread arrives (as if from a point that claims nothing) or leaves. */
  lemma Joined(at: map<Tid, Point>, t: Tid, p: Point)
    requires t !in at
    ensures Shift(at, at[t := p], WantSlot, p)
  {
    NumAdd(at, t, p, SLOTS);
    NumAdd(at, t, p, ITEMS);
    NumAdd(at, t, p, TAKEN);
    NumAdd(at, t, p, PUT);
    NumAdd(at, t, p, LOCKED);
  }

  lemma Left(at: map<Tid, Point>, t: Tid)
    requires t in at
    ensures Shift(at, at - {t}, at[t], WantSlot)
  {
    NumDrop(at, t, SLOTS);
    NumDrop(at, t, ITEMS);
    NumDrop(at, t, TAKEN);
    NumDrop(at, t, PUT);
    NumDrop(at, t, LOCKED);
  }

  /** A thread that does not wait anywhere, before or after. */
  lemma QuietMove<T>(s: State<T>, t: Tid, p: Point)
    requires Queues(s.at, s.nEmpty, s.nFull, s.lock)
    requires t in s.at ==> s.at[t] !in AT_SLOT && s.at[t] !in AT_ITEM && s.at[t] !in AT_LOCK
    requires p !in AT_SLOT && p !in AT_ITEM && p !in AT_LOCK
    ensures Queues(s.at[t := p], s.nEmpty, s.nFull, s.lock)
  {
    WaitsKept(s.at, s.nEmpty.waiting, AT_SLOT, t, p);
    WaitsKept(s.at, s.nFull.waiting, AT_ITEM, t, p);
    WaitsKept(s.at, s.lock.waiting, AT_LOCK, t, p);
  }

  /** A thread that waits nowhere leaves. */
  lemma QuietLeave(at: map<Tid, Point>, nEmpty: Sem, nFull: Sem, lock: Sem, t: Tid)
    requires Queues(at, nEmpty, nFull, lock)
    requires t in at && at[t] !in AT_SLOT && at[t] !in AT_ITEM && at[t] !in AT_LOCK
    ensures Queues(at - {t}, nEmpty, nFull, lock)
  {
    WaitsDropped(at, nEmpty.waiting, AT_SLOT, t);
    WaitsDropped(at, nFull.waiting, AT_ITEM, t);
    WaitsDropped(at, lock.waiting, AT_LOCK, t);
  }

  lemma ArgumentsKept<T>(s: State<T>, s': State<T>)
    requires Inv(s)
    requires forall x {:trigger HasArgument(s', x)} :: x in s'.at && (s'.at[x] in SLOTS + AT_SLOT) ==>
               x in s'.val || (x in s.at && (s.at[x] in SLOTS + AT_SLOT))
    requires forall x :: x in s.val ==> x in s'.val
    ensures forall x {:trigger HasArgument(s', x)} :: x in s'.at && (s'.at[x] in SLOTS + AT_SLOT) ==> HasArgument(s', x)
  {
    forall x | x in s'.at && (s'.at[x] in SLOTS + AT_SLOT) ensures HasArgument(s', x) {
      assert HasArgument(s', x) || HasArgument(s, x);
    }
  }

  lemma StartPutKeeps<T>(s: State<T>, t: Tid, v: T)
    requires Inv(s) && Enabled(s, StartPut(t, v))
    ensures Inv(Apply(s, StartPut(t, v)))
  {
    var s' := Apply(s, StartPut(t, v));
    var p := s'.at[t];
    Joined(s.at, t, p);
    ArgumentsKept(s, s');
    if Available(s.nEmpty) {
      QuietMove(s, t, p);
    } else {
      WaitsGrow(s.at, s.nEmpty.waiting, AT_SLOT, t, p);
      WaitsKept(s.at, s.nFull.waiting, AT_ITEM, t, p);
      WaitsKept(s.at, s.lock.waiting, AT_LOCK, t, p);
    }
  }

  lemma StartGetKeeps<T>(s: State<T>, t: Tid)
    requires Inv(s) && Enabled(s, StartGet(t))
    ensures Inv(Apply(s, StartGet(t)))
  {
    var s' := Apply(s, StartGet(t));
    var p := s'.at[t];
    Joined(s.at, t, p);
    ArgumentsKept(s, s');
    if Available(s.nFull) {
      QuietMove(s, t, p);
    } else {
      WaitsKept(s.at, s.nEmpty.waiting, AT_SLOT, t, p);
      WaitsGrow(s.at, s.nFull.waiting, AT_ITEM, t, p);
      WaitsKept(s.at, s.lock.waiting, AT_LOCK, t, p);
    }
  }

  lemma LockKeeps<T>(s: State<T>, t: Tid)
    requires Inv(s) && Enabled(s, Lock(t))
    ensures Inv(Apply(s, Lock(t)))
  {
    var s' := Apply(s, Lock(t));
    var p := s'.at[t];
    Moved(s.at, t, p);
    ArgumentsKept(s, s');
    if Available(s.lock) {
      QuietMove(s, t, p);
    } else {
      WaitsKept(s.at, s.nEmpty.waiting, AT_SLOT, t, p);
      WaitsKept(s.at, s.nFull.waiting, AT_ITEM, t, p);
      WaitsGrow(s.at, s.lock.waiting, AT_LOCK, t, p);
    }
  }

  lemma WriteKeeps<T>(s: State<T>, t: Tid)
    requires Inv(s) && Enabled(s, Write(t)) && Safe(s, Write(t))
    ensures Inv(Apply(s, Write(t)))
  {
    Moved(s.at, t, PutDone);
    QuietMove(s, t, PutDone);
    RingPut(s.data, s.head, s.n, s.val[t]);
    ArgumentsKept(s, Apply(s, Write(t)));
  }

  lemma ReadBuffered<T>(s: State<T>, t: Tid)
    requires Buffered(s) && Enabled(s, Read(t)) && Safe(s, Read(t))
    ensures Buffered(Apply(s, Read(t)))
  {
    RingTake(s.data, s.head, s.n);
    var r := Ring(s.data, (s.head + 1) % s.N, s.n - 1);
    assert s.gets + ([s.data[s.head]] + r) == s.gets + [s.data[s.head]] + r;
  }

  lemma ReadKeeps<T>(s: State<T>, t: Tid)
    requires Inv(s) && Enabled(s, Read(t)) && Safe(s, Read(t))
    ensures Inv(Apply(s, Read(t)))
  {
    Moved(s.at, t, GetDone);
    QuietMove(s, t, GetDone);
    ReadBuffered(s, t);
    ArgumentsKept(s, Apply(s, Read(t)));
  }

  /** Handing a semaphore to its longest waiter moves that thread past its blocking point, and nobody else. */
  lemma Woken<T>(s: State<T>, sem: Sem, f: set<Point>)
    requires Inv(s) && sem.waiting != []
    requires (f == AT_SLOT && sem == s.nEmpty) || (f == AT_ITEM && sem == s.nFull) || (f == AT_LOCK && sem == s.lock)
    ensures var w := sem.waiting[0];
            && w in s.at && s.at[w] in f && Wake(s.at, sem) == s.at[w := Resumed(s.at[w])]
            && Shift(s.at, Wake(s.at, sem), s.at[w], Resumed(s.at[w]))
    ensures Queues(Wake(s.at, sem), if f == AT_SLOT then Up(sem) else s.nEmpty,
                   if f == AT_ITEM then Up(sem) else s.nFull, if f == AT_LOCK then Up(sem) else s.lock)
  {
    var w := sem.waiting[0];
    assert Waiter(s.at, sem.waiting, f, 0);
    var p := Resumed(s.at[w]);
    Moved(s.at, w, p);
    if f == AT_SLOT { WaitsShrink(s.at, s.nEmpty.waiting, AT_SLOT, p); }
    else { WaitsKept(s.at, s.nEmpty.waiting, AT_SLOT, w, p); }
    if f == AT_ITEM { WaitsShrink(s.at, s.nFull.waiting, AT_ITEM, p); }
    else { WaitsKept(s.at, s.nFull.waiting, AT_ITEM, w, p); }
    if f == AT_LOCK { WaitsShrink(s.at, s.lock.waiting, AT_LOCK, p); }
    else { WaitsKept(s.at, s.lock.waiting, AT_LOCK, w, p); }
  }

  /** One claim more at the points `g`, when someone was woken. */
  ghost predicate Granted(at: map<Tid, Point>, at': map<Tid, Point>, some: bool, f: set<Point>) {
    && Num(at', SLOTS) == Num(at, SLOTS) + (if some && f == AT_SLOT then 1 else 0)
    && Num(at', ITEMS) == Num(at, ITEMS) + (if some && f == AT_ITEM then 1 else 0)
    && Num(at', TAKEN) == Num(at, TAKEN)
    && Num(at', PUT) == Num(at, PUT)
    && Num(at', LOCKED) == Num(at, LOCKED) + (if some && f == AT_LOCK then 1 else 0)
  }

  lemma WakeKeeps<T>(s: State<T>, sem: Sem, f: set<Point>, t: Tid)
    requires Inv(s) && t in s.at && s.at[t] !in f
    requires (f == AT_SLOT && sem == s.nEmpty) || (f == AT_ITEM && sem == s.nFull) || (f == AT_LOCK && sem == s.lock)
    ensures t in Wake(s.at, sem) && Wake(s.at, sem)[t] == s.at[t]
    ensures Granted(s.at, Wake(s.at, sem), sem.waiting != [], f)
    ensures Queues(Wake(s.at, sem), if f == AT_SLOT then Up(sem) else s.nEmpty,
                   if f == AT_ITEM then Up(sem) else s.nFull, if f == AT_LOCK then Up(sem) else s.lock)
    ensures forall x :: x in Wake(s.at, sem) && Wake(s.at, sem)[x] in SLOTS + AT_SLOT ==>
              x in s.at && s.at[x] in SLOTS + AT_SLOT
  {
    if sem.waiting != [] { Woken(s, sem, f); }
  }

  lemma UnlockKeeps<T>(s: State<T>, t: Tid)
    requires Inv(s) && Enabled(s, Unlock(t))
    ensures Inv(Apply(s, Unlock(t)))
  {
    var s' := Apply(s, Unlock(t));
    var at1, p := Wake(s.at, s.lock), s'.at[t];
    WakeKeeps(s, s.lock, AT_LOCK, t);
    Moved(at1, t, p);
    QuietMove(s.(at := at1, lock := s'.lock), t, p);
    ArgumentsKept(s, s');
  }

  lemma SignalPutKeeps<T>(s: State<T>, t: Tid)
    requires Inv(s) && Enabled(s, Signal(t)) && s.at[t] == PutSignal
    ensures Inv(Apply(s, Signal(t)))
  {
    var s', at1 := Apply(s, Signal(t)), Wake(s.at, s.nFull);
    WakeKeeps(s, s.nFull, AT_ITEM, t);
    Left(at1, t);
    QuietLeave(at1, s'.nEmpty, s'.nFull, s'.lock, t);
    ArgumentsKept(s, s');
  }

  lemma SignalGetKeeps<T>(s: State<T>, t: Tid)
    requires Inv(s) && Enabled(s, Signal(t)) && s.at[t] == GetSignal
    ensures Inv(Apply(s, Signal(t)))
  {
    var s', at1 := Apply(s, Signal(t)), Wake(s.at, s.nEmpty);
    WakeKeeps(s, s.nEmpty, AT_SLOT, t);
    Left(at1, t);
    QuietLeave(at1, s'.nEmpty, s'.nFull, s'.lock, t);
    ArgumentsKept(s, s');
  }

  lemma StepKeeps<T>(s: State<T>, e: Event<T>)
    requires Inv(s) && Enabled(s, e) && Safe(s, e)
    ensures Inv(Apply(s, e))
  {
    match e
    case StartPut(t, v) => StartPutKeeps(s, t, v);
    case StartGet(t) => StartGetKeeps(s, t);
    case Lock(t) => LockKeeps(s, t);
    case Write(t) => WriteKeeps(s, t);
    case Read(t) => ReadKeeps(s, t);
    case Unlock(t) => UnlockKeeps(s, t);
    case Signal(t) => if s.at[t] == PutSignal { SignalPutKeeps(s, t); } else { SignalGetKeeps(s, t); }
  }

  // ---------------------------------------------------------------- runs

  function Init<T>(data: seq<T>): State<T> {
    State(|data|, 0, 0, data, Sem(|data|, []), Sem(0, []), Sem(1, []), map[], map[], [], [])
  }

  lemma InitHolds<T>(data: seq<T>)
    requires |data| <= 0x8000_0000
    ensures Inv(Init(data))
  {
    var at: map<Tid, Point> := map[];
    forall f: set<Point> ensures Num(at, f) == 0 { NumAtMost(at, f); }
    assert Ring(data, 0, 0) == [];
  }

  ghost predicate Run<T>(states: seq<State<T>>, events: seq<Event<T>>) {
    && |states| == |events| + 1 && states[0] == Init(states[0].data) && |states[0].data| <= 0x8000_0000
    && forall i {:trigger events[i]} :: 0 <= i < |events| ==>
         Enabled(states[i], events[i]) && (Safe(states[i], events[i]) ==> states[i + 1] == Apply(states[i], events[i]))
  }

  /** In every run: no ring access is out of bounds, the buffer never holds more than N values,
      and what was read is a prefix of what was written. */
  lemma {:induction false} RunIsSafe<T>(states: seq<State<T>>, events: seq<Event<T>>, i: int)
    requires Run(states, events) && 0 <= i <= |events|
    ensures Inv(states[i])
    ensures 0 <= states[i].n <= states[i].N && states[i].gets <= states[i].puts
    ensures i < |events| ==> Safe(states[i], events[i])
    decreases i
  {
    if i == 0 {
      InitHolds(states[0].data);
    } else {
      RunIsSafe(states, events, i - 1);
      assert Enabled(states[i - 1], events[i - 1]);
      StepKeeps(states[i - 1], events[i - 1]);
    }
    if i < |events| {
      assert Enabled(states[i], events[i]);
      AlwaysSafe(states[i], events[i]);
    }
  }

  // ---------------------------------------------------------------- progress

  /** No step of thread `t`, which is inside put or get, is possible. */
  ghost predicate Stuck<T>(s: State<T>, t: Tid) {
    !Enabled(s, Lock(t)) && !Enabled(s, Write(t)) && !Enabled(s, Read(t)) && !Enabled(s, Unlock(t)) &&
    !Enabled(s, Signal(t))
  }

  /** When nobody inside can move, no claim is outstanding and the lock is free. */
  lemma StuckCounts<T>(s: State<T>)
    requires Inv(s) && forall t {:trigger Stuck(s, t)} :: t in s.at ==> Stuck(s, t)
    ensures forall t :: t in s.at ==> s.at[t] == WantSlot || s.at[t] == WantItem
    ensures Num(s.at, SLOTS) == Num(s.at, TAKEN) == Num(s.at, ITEMS) == Num(s.at, PUT) == 0
  {
    forall t | t in s.at ensures s.at[t] in {WantSlot, WantItem, PutWait, GetWait} { assert Stuck(s, t); }
    NobodyThere(s.at, LOCKED);
    forall t | t in s.at ensures s.at[t] == WantSlot || s.at[t] == WantItem {
      assert s.at[t] in AT_LOCK ==> Listed(s.lock.waiting, t);
    }
    NobodyThere(s.at, SLOTS);
    NobodyThere(s.at, TAKEN);
    NobodyThere(s.at, ITEMS);
    NobodyThere(s.at, PUT);
  }

  /** If no thread inside can move, each of them waits for a slot while the buffer is full or for an item while
      it is empty; so unless the buffer has no slots at all, they all wait for the same. */
  lemma OnlyFullOrEmpty<T>(s: State<T>)
    requires Inv(s) && forall t {:trigger Stuck(s, t)} :: t in s.at ==> Stuck(s, t)
    ensures forall t :: t in s.at ==> (s.at[t] == WantSlot && s.n == s.N) || (s.at[t] == WantItem && s.n == 0)
    ensures 0 < s.N ==> forall t, t' :: t in s.at && t' in s.at ==> s.at[t] == s.at[t']
  {
    StuckCounts(s);
    forall t | t in s.at
      ensures (s.at[t] == WantSlot && s.n == s.N) || (s.at[t] == WantItem && s.n == 0)
    {
      assert s.at[t] == WantSlot ==> Listed(s.nEmpty.waiting, t);
      assert s.at[t] == WantItem ==> Listed(s.nFull.waiting, t);
    }
  }

  /** Own steps that a put or get still takes; a blocked one takes none until it is woken. */
  function Weight(p: Point): nat {
    match p
    case WantSlot => 4
    case HasSlot => 4
    case PutWait => 3
    case PutIn => 3
    case PutDone => 2
    case PutSignal => 1
    case WantItem => 4
    case HasItem => 4
    case GetWait => 3
    case GetIn => 3
    case GetDone => 2
    case GetSignal => 1
  }

  /** The thread is inside put, not inside get. */
  predicate Putting(p: Point) { p in SLOTS + PUT + AT_SLOT }

  /** Waking the longest waiter moves nobody away from its return, and only that waiter at all. */
  lemma WakeWeighs(at: map<Tid, Point>, sem: Sem, t: Tid)
    requires t in at
    ensures var at' := Wake(at, sem);
            && t in at' && Weight(at'[t]) <= Weight(at[t]) && (Putting(at'[t]) <==> Putting(at[t]))
            && (at[t] !in AT_SLOT + AT_ITEM + AT_LOCK ==> at'[t] == at[t])
  {
  }

  /** Each step of a thread brings it closer to its return, and nobody else's step moves it away: after the call, a
      put or get takes four steps. */
  lemma OwnStepsCount<T>(s: State<T>, e: Event<T>, t: Tid)
    requires Enabled(s, e) && Safe(s, e) && t in s.at
    ensures var at' := Apply(s, e).at;
            && (t !in at' ==> e == Signal(t) && Weight(s.at[t]) == 1)
            && (t in at' ==> (Putting(at'[t]) <==> Putting(s.at[t])) &&
                             Weight(at'[t]) <= Weight(s.at[t]) - if e.t == t then 1 else 0)
  {
    match e
    case Unlock(_) => WakeWeighs(s.at, s.lock, t);
    case Signal(u) => WakeWeighs(s.at, if s.at[u] == PutSignal then s.nFull else s.nEmpty, t);
    case _ =>
  }

  /** A call puts the thread in front of its first semaphore, with the argument of a put remembered. */
  lemma CallEnters<T>(s: State<T>, t: Tid, v: T)
    requires t !in s.at
    ensures var s1 := Apply(s, StartPut(t, v));
            t in s1.at && Putting(s1.at[t]) && Weight(s1.at[t]) == 4 && t in s1.val && s1.val[t] == v
    ensures var s2 := Apply(s, StartGet(t));
            t in s2.at && !Putting(s2.at[t]) && Weight(s2.at[t]) == 4
  {
  }

  // ---------------------------------------------------------------- arguments and results

  /** What a get takes is the oldest value in the ring, and it is what the get will return. */
  lemma ReadReturns<T>(s: State<T>, t: Tid)
    requires Inv(s) && Enabled(s, Read(t)) && Safe(s, Read(t))
    ensures var s' := Apply(s, Read(t));
            && t in s'.val && s'.gets == s.gets + [s'.val[t]]
            && |s.gets| < |s.puts| && s'.val[t] == s.puts[|s.gets|]
  {
    ReadKeeps(s, t);
  }

  /** The value a get took stays with it until it returns. */
  lemma ResultStays<T>(s: State<T>, e: Event<T>, t: Tid)
    requires Enabled(s, e) && Safe(s, e) && t in s.at && s.at[t] in TAKEN && t in s.val && e != Signal(t)
    ensures var s' := Apply(s, e);
            t in s'.at && s'.at[t] in TAKEN && t in s'.val && s'.val[t] == s.val[t] && s.gets <= s'.gets
  {
    OwnStepsCount(s, e, t);
  }

  /** The argument of a put stays with it until it is written. */
  lemma ArgumentStays<T>(s: State<T>, e: Event<T>, t: Tid)
    requires Enabled(s, e) && Safe(s, e) && t in s.at && s.at[t] in SLOTS + AT_SLOT && t in s.val
    requires e != Write(t)
    ensures var s' := Apply(s, e);
            t in s'.at && s'.at[t] in SLOTS + AT_SLOT && t in s'.val && s'.val[t] == s.val[t]
  {
    OwnStepsCount(s, e, t);
  }

  /** In every run, what a get returns is the value it took in its turn: the k-th read, in lock order, returns the
      k-th value of `gets`, which is the k-th value put. */
  lemma {:induction false} GetReturns<T>(states: seq<State<T>>, events: seq<Event<T>>, i: int, j: int, t: Tid)
    requires Run(states, events) && 0 <= i < j <= |events| && events[i] == Read(t)
    requires forall k :: i < k < j ==> events[k] != Signal(t)
    ensures var s, k := states[j], |states[i].gets|;
            && t in s.at && s.at[t] in TAKEN && t in s.val
            && k < |s.gets| && s.val[t] == s.gets[k] && k < |s.puts| && s.gets[k] == s.puts[k]
    decreases j - i
  {
    RunIsSafe(states, events, j);
    RunIsSafe(states, events, j - 1);
    var s, e := states[j - 1], events[j - 1];
    assert Enabled(s, e) && states[j] == Apply(s, e);
    if i + 1 < j {
      GetReturns(states, events, i, j - 1, t);
      ResultStays(s, e, t);
    }
  }

  /** In every run, what a put writes is its own argument. */
  lemma {:induction false} PutWaits<T>(states: seq<State<T>>, events: seq<Event<T>>, i: int, j: int, t: Tid, v: T)
    requires Run(states, events) && 0 <= i < j <= |events| && events[i] == StartPut(t, v)
    requires forall k :: i < k < j ==> events[k] != Write(t)
    ensures var s := states[j];
            t in s.at && s.at[t] in SLOTS + AT_SLOT && t in s.val && s.val[t] == v
    ensures j < |events| && events[j] == Write(t) ==> states[j + 1].puts == states[j].puts + [v]
    decreases j - i
  {
    RunIsSafe(states, events, j);
    RunIsSafe(states, events, j - 1);
    var s, e := states[j - 1], events[j - 1];
    assert Enabled(s, e) && states[j] == Apply(s, e);
    if i + 1 < j {
      PutWaits(states, events, i, j - 1, t, v);
      ArgumentStays(s, e, t);
    }
    assert j < |events| ==> Enabled(states[j], events[j]);
  }
}

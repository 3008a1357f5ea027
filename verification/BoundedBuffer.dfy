/** BoundedBuffer::put and get under any interleaving of any number of producers and consumers.

    Between critical sections a thread stands at one of the program points below; every
    semaphore operation and every access to the ring is one step. */
module BoundedBuffer {
  import opened Tally
  import opened Semaphore
  import opened Bytes

  datatype Point =
    | WantSlot       // blocked in nEmpty.down
    | HasSlot        // past nEmpty.down
    | PutWait        // blocked in lock.down
    | PutIn          // holds the lock, not written yet
    | PutDone        // holds the lock, written
    | PutSignal      // released the lock, nFull.up to come
    | WantItem       // blocked in nFull.down
    | HasItem        // past nFull.down
    | GetWait        // blocked in lock.down
    | GetIn          // holds the lock, not read yet
    | GetDone        // holds the lock, read
    | GetSignal      // released the lock, nEmpty.up to come

  datatype State<T> = State(
    N: nat, head: int, n: int, data: seq<T>,
    nEmpty: Sem, nFull: Sem, lock: Sem,
    at: map<Tid, Point>,
    val: map<Tid, T>,      // the argument of a put under way, the result of a get
    puts: seq<T>,          // values written, in lock order
    gets: seq<T>           // values read, in lock order
  )

  // ---------------------------------------------------------------- steps

  datatype Event<T> =
    | StartPut(t: Tid, v: T) | StartGet(t: Tid)
    | Lock(t: Tid) | Write(t: Tid) | Read(t: Tid) | Unlock(t: Tid) | Signal(t: Tid)

  predicate Enabled<T>(s: State<T>, e: Event<T>) {
    match e
    case StartPut(t, _) => t !in s.at
    case StartGet(t) => t !in s.at
    case Lock(t) => t in s.at && (s.at[t] == HasSlot || s.at[t] == HasItem)
    case Write(t) => t in s.at && s.at[t] == PutIn
    case Read(t) => t in s.at && s.at[t] == GetIn
    case Unlock(t) => t in s.at && (s.at[t] == PutDone || s.at[t] == GetDone)
    case Signal(t) => t in s.at && (s.at[t] == PutSignal || s.at[t] == GetSignal)
  }

  /** Where a waiter stands once its semaphore was handed to it. */
  function Resumed(p: Point): Point {
    match p
    case WantSlot => HasSlot
    case PutWait => PutIn
    case WantItem => HasItem
    case GetWait => GetIn
    case _ => p
  }

  function Wake(at: map<Tid, Point>, s: Sem): map<Tid, Point> {
    if s.waiting != [] && s.waiting[0] in at then at[s.waiting[0] := Resumed(at[s.waiting[0]])] else at
  }

  /** Index of the slot `put` writes, in 32-bit arithmetic. */
  function WriteIndex(head: int, n: int, N: int): int
    requires N > 0
  {
    ((head + n) % WORD_MAX) % N
  }

  /** The ring access of this step is in bounds, and there is room or something to take. */
  predicate Safe<T>(s: State<T>, e: Event<T>) {
    match e
    case Write(t) => 0 < s.N && 0 <= s.n < s.N && 0 <= WriteIndex(s.head, s.n, s.N) < |s.data| && t in s.val
    case Read(t) => 0 < s.n && 0 <= s.head < |s.data| && 0 < s.N
    case _ => true
  }

  function Apply<T>(s: State<T>, e: Event<T>): State<T>
    requires Enabled(s, e) && Safe(s, e)
  {
    match e
    case StartPut(t, v) =>
      s.(nEmpty := Down(s.nEmpty, t), at := s.at[t := if Available(s.nEmpty) then HasSlot else WantSlot],
         val := s.val[t := v])
    case StartGet(t) =>
      s.(nFull := Down(s.nFull, t), at := s.at[t := if Available(s.nFull) then HasItem else WantItem])
    case Lock(t) =>
      var put := s.at[t] == HasSlot;
      var next := if Available(s.lock) then (if put then PutIn else GetIn) else (if put then PutWait else GetWait);
      s.(lock := Down(s.lock, t), at := s.at[t := next])
    case Write(t) =>
      s.(data := s.data[WriteIndex(s.head, s.n, s.N) := s.val[t]], n := s.n + 1,
         at := s.at[t := PutDone], puts := s.puts + [s.val[t]])
    case Read(t) =>
      var out := s.data[s.head];
      s.(head := (s.head + 1) % s.N, n := s.n - 1, at := s.at[t := GetDone], val := s.val[t := out],
         gets := s.gets + [out])
    case Unlock(t) =>
      s.(lock := Up(s.lock), at := Wake(s.at, s.lock)[t := if s.at[t] == PutDone then PutSignal else GetSignal])
    case Signal(t) =>
      if s.at[t] == PutSignal then s.(nFull := Up(s.nFull), at := Wake(s.at, s.nFull) - {t})
      else s.(nEmpty := Up(s.nEmpty), at := Wake(s.at, s.nEmpty) - {t})
  }

  // ---------------------------------------------------------------- invariant

  const SLOTS := {HasSlot, PutWait, PutIn}          // an empty slot claimed, not yet filled
  const ITEMS := {HasItem, GetWait, GetIn}          // an item claimed, not yet read
  const TAKEN := {GetDone, GetSignal}               // a slot emptied, not yet announced
  const PUT := {PutDone, PutSignal}                 // an item written, not yet announced
  const LOCKED := {PutIn, PutDone, GetIn, GetDone}
  const AT_SLOT := {WantSlot}
  const AT_ITEM := {WantItem}
  const AT_LOCK := {PutWait, GetWait}

  /** The slot `i` places after `head`, wrapping around. */
  function Slot(head: int, i: int, N: int): int
    requires 0 <= head && 0 <= i < N
  {
    (head + i) % N
  }

  /** The buffered values in queue order. */
  function Ring<T>(data: seq<T>, head: int, n: int): (r: seq<T>)
    requires 0 <= head && 0 <= n <= |data|
    ensures |r| == n && forall i :: 0 <= i < n ==> r[i] == data[Slot(head, i, |data|)]
  {
    seq(n, i requires 0 <= i < n => data[Slot(head, i, |data|)])
  }

  ghost predicate Tokens<T>(s: State<T>) {
    && s.nEmpty.count + Num(s.at, SLOTS) + s.n + Num(s.at, TAKEN) == s.N
    && s.nFull.count + Num(s.at, ITEMS) + Num(s.at, PUT) == s.n
    && s.lock.count + Num(s.at, LOCKED) == 1
    && NoIdleUnit(s.nEmpty) && NoIdleUnit(s.nFull) && NoIdleUnit(s.lock)
  }

  ghost predicate Buffered<T>(s: State<T>) {
    && s.N <= 0x8000_0000 && |s.data| == s.N && 0 <= s.n <= s.N && 0 <= s.head && (0 < s.N ==> s.head < s.N)
    && s.puts == s.gets + Ring(s.data, s.head, s.n)
  }

  ghost predicate Queues(at: map<Tid, Point>, nEmpty: Sem, nFull: Sem, lock: Sem) {
    && Waits(at, nEmpty.waiting, AT_SLOT)
    && Waits(at, nFull.waiting, AT_ITEM)
    && Waits(at, lock.waiting, AT_LOCK)
  }

  /** A put under way remembers its argument. */
  ghost predicate HasArgument<T>(s: State<T>, t: Tid) { t in s.val }

  ghost predicate Inv<T>(s: State<T>) {
    && Tokens(s) && Buffered(s) && Queues(s.at, s.nEmpty, s.nFull, s.lock)
    && forall t {:trigger HasArgument(s, t)} :: t in s.at && s.at[t] in SLOTS + AT_SLOT ==> HasArgument(s, t)
  }

  // ---------------------------------------------------------------- the ring

  /** Below twice the size, wrapping subtracts it once. */
  lemma SlotIs(head: int, i: int, N: int)
    requires 0 <= head < N && 0 <= i < N
    ensures Slot(head, i, N) == if head + i < N then head + i else head + i - N
  {
  }

  /** The 32-bit sum `head + n` picks the right slot in every state exactly when the buffer has at most 2^31 slots. */
  lemma IndexIsRightWhen(N: int)
    requires 0 < N < WORD_MAX
    ensures (forall head, n :: 0 <= head < N && 0 <= n < N ==>
              WriteIndex(head, n, N) == Slot(head, n, N)) <==> N <= 0x8000_0000
  {
    if N > 0x8000_0000 {
      var head, n := N - 1, WORD_MAX - (N - 1);
      assert WriteIndex(head, n, N) == 0;
      SlotIs(head, n, N);
    }
  }

  lemma RingPut<T>(data: seq<T>, head: int, n: int, v: T)
    requires 0 <= head < |data| && 0 <= n < |data| <= 0x8000_0000
    ensures 0 <= WriteIndex(head, n, |data|) < |data|
    ensures Ring(data[WriteIndex(head, n, |data|) := v], head, n + 1) == Ring(data, head, n) + [v]
  {
    var N := |data|;
    assert WriteIndex(head, n, N) == Slot(head, n, N);
    var data' := data[Slot(head, n, N) := v];
    var r, r' := Ring(data, head, n) + [v], Ring(data', head, n + 1);
    forall j | 0 <= j <= n ensures r'[j] == r[j] {
      SlotIs(head, j, N);
      SlotIs(head, n, N);
    }
  }

  lemma RingTake<T>(data: seq<T>, head: int, n: int)
    requires 0 <= head < |data| && 0 < n <= |data|
    ensures 0 <= (head + 1) % |data| < |data|
    ensures Ring(data, head, n) == [data[head]] + Ring(data, (head + 1) % |data|, n - 1)
  {
    var N := |data|;
    var head' := (head + 1) % N;
    NextHead(head, N);
    var r, r' := Ring(data, head, n), [data[head]] + Ring(data, head', n - 1);
    forall j | 0 <= j < n ensures r[j] == r'[j] {
      NextSlot(head, j, N);
    }
  }

  lemma NextHead(head: int, N: int)
    requires 0 <= head < N
    ensures (head + 1) % N == if head + 1 < N then head + 1 else 0
  {
  }

  lemma NextSlot(head: int, j: int, N: int)
    requires 0 <= head < N && 0 <= j < N && 0 <= (head + 1) % N
    ensures j == 0 ==> Slot(head, j, N) == head
    ensures 0 < j ==> Slot(head, j, N) == Slot((head + 1) % N, j - 1, N)
  {
    NextHead(head, N);
    SlotIs(head, j, N);
    if 0 < j { SlotIs(if head + 1 < N then head + 1 else 0, j - 1, N); }
  }
}

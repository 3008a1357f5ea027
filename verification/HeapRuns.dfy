/** Whole runs of grants, releases and payload writes, from heapInit on. */
module HeapRuns {
  import opened Lists
  import opened HeapSpec
  import opened HeapMoves
  import opened HeapSearch
  import opened HeapOps
  import opened Bytes

  datatype Event = Grant(h: int, bytes: int) | Release(h: int) | Write(h: int)

  /** One malloc that succeeds or one free of a live block, word by word, as Heap.MallocBest, MallocFirst
      and Free promise them, or a program writing to a payload it was given. */
  ghost predicate Step(s: State, e: Event, s': State) {
    match e
    case Grant(h, bytes) => 0 < bytes < WORD_MAX && CarveStep(s, h, IntsFor(bytes), s')
    case Release(h) => Live(s.tags, |s.mem|, h) && ReleaseStep(s, h, s')
    case Write(h) =>
      && Live(s.tags, |s.mem|, h) && OnlyPayload(s.mem, s'.mem, h, Abs(s.tags[h]))
      && s' == s.(mem := s'.mem)
  }

  ghost predicate Run(states: seq<State>, region: seq<int>, events: seq<Event>) {
    && 8 <= |region| && |states| == |events| + 1 && states[0] == InitState(region)
    && forall i {:trigger events[i]} :: 0 <= i < |events| ==> Step(states[i], events[i], states[i + 1])
  }

  lemma StepKeeps(s: State, e: Event, s': State)
    requires GoodState(s) && Step(s, e, s')
    ensures GoodState(s') && |s'.mem| == |s.mem|
  {
    match e
    case Grant(h, bytes) => CarveStepKeeps(s, h, IntsFor(bytes), s');
    case Release(h) => ReleaseStepKeeps(s, h, s');
    case Write(h) => PayloadWritesKeep(s.mem, s'.mem, s.avail, s.tags, s.order, h);
  }

  /** Every state of every run is tiled, tagged at both ends of every block, listed and fully coalesced. */
  lemma {:induction false} RunKeeps(states: seq<State>, region: seq<int>, events: seq<Event>, i: int)
    requires Run(states, region, events) && 0 <= i <= |events|
    ensures GoodState(states[i]) && |states[i].mem| == |region|
    decreases i
  {
    if i == 0 {
      InitGood(region);
    } else {
      RunKeeps(states, region, events, i - 1);
      assert Step(states[i - 1], events[i - 1], states[i]);
      StepKeeps(states[i - 1], events[i - 1], states[i]);
    }
  }

  /** One step leaves a live block that it does not release in place, and its words too unless it writes them. */
  lemma StepLeaves(s: State, e: Event, s': State, h: int)
    requires GoodState(s) && Step(s, e, s') && Live(s.tags, |s.mem|, h) && e != Release(h)
    ensures Live(s'.tags, |s.mem|, h) && s'.tags[h] == s.tags[h]
    ensures e != Write(h) ==> WordsKept(s.mem, s'.mem, h, Abs(s.tags[h]))
  {
    match e
    case Grant(it, bytes) =>
      CarveStepKeeps(s, it, IntsFor(bytes), s');
      CarveKeepsLive(s.tags, |s.mem|, it, IntsFor(bytes));
      assert h in s'.tags;
    case Release(r) =>
      ReleaseStepKeeps(s, r, s');
      var g :| LeftOf(s.tags, g, r) && s'.tags == ReleaseTags(s.tags, g, r);
      ReleaseKeepsLive(s.tags, |s.mem|, g, r);
      assert h in s'.tags;
    case Write(w) =>
      assert w == h || Apart(s.tags, w, h);
  }

  /** A live block keeps its place and size until it is released. */
  lemma {:induction false} LiveUntilReleased(states: seq<State>, region: seq<int>, events: seq<Event>,
                                             i: int, j: int, h: int)
    requires Run(states, region, events) && 0 <= i <= j <= |events| && Live(states[i].tags, |region|, h)
    requires forall k :: i <= k < j ==> events[k] != Release(h)
    ensures Live(states[j].tags, |region|, h) && states[j].tags[h] == states[i].tags[h]
    decreases j - i
  {
    if i < j {
      LiveUntilReleased(states, region, events, i, j - 1, h);
      RunKeeps(states, region, events, j - 1);
      assert Step(states[j - 1], events[j - 1], states[j]);
      StepLeaves(states[j - 1], events[j - 1], states[j], h);
    }
  }

  /** Whatever else is allocated, freed or written meanwhile, a live block's words change only when its owner
      writes them. */
  lemma {:induction false} ContentsUntilWritten(states: seq<State>, region: seq<int>, events: seq<Event>,
                                                i: int, j: int, h: int)
    requires Run(states, region, events) && 0 <= i <= j <= |events| && Live(states[i].tags, |region|, h)
    requires forall k :: i <= k < j ==> events[k] != Release(h) && events[k] != Write(h)
    ensures WordsKept(states[i].mem, states[j].mem, h, Abs(states[i].tags[h]))
    decreases j - i
  {
    if i < j {
      ContentsUntilWritten(states, region, events, i, j - 1, h);
      LiveUntilReleased(states, region, events, i, j - 1, h);
      RunKeeps(states, region, events, j - 1);
      assert Step(states[j - 1], events[j - 1], states[j]);
      StepLeaves(states[j - 1], events[j - 1], states[j], h);
    }
  }

  /** When everything granted has been released, the heap is exactly as heapInit left it: one listed free block. */
  lemma DrainedRunIsFresh(states: seq<State>, region: seq<int>, events: seq<Event>)
    requires Run(states, region, events)
    requires forall h :: h in states[|events|].tags ==> !Live(states[|events|].tags, |region|, h)
    ensures var s := states[|events|];
            s.tags == InitTags(|region|) && s.order == [2] && s.avail == 2
  {
    var s := states[|events|];
    RunKeeps(states, region, events, |events|);
    AllFreeIsOneBlock(s.tags, |region|);
    OneFreeIsListed(s, |region|);
  }

  lemma OneFreeIsListed(s: State, len: int)
    requires GoodState(s) && 8 <= len && s.tags == InitTags(len)
    ensures s.order == [2] && s.avail == 2
  {
    assert InList(s.order, 2);
    forall k | 0 <= k < |s.order| ensures s.order[k] == 2 { assert FreeAt(s.tags, s.order, {}, k); }
    assert |s.order| <= 1 || Differ(s.order, 0, 1);
  }
}

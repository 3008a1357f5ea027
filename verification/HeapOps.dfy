/** heapInit, malloc's carving and free's merging as whole steps on the words. */
module HeapOps {
  import opened Lists
  import opened HeapSpec
  import opened HeapMoves

  ghost function InitTags(len: int): Tags { map[0 := -2, 2 := len - 4, len - 2 := -2] }

  /** The words after heapInit. */
  function InitMem(mem: seq<int>): seq<int>
    requires 8 <= |mem|
  {
    TakeMem(PushMem(TakeMem(mem, 0, 2), 0, 2, |mem| - 4), |mem| - 2, 2)
  }

  lemma InitTagOk(mem: seq<int>, h: int)
    requires 8 <= |mem| && h in InitTags(|mem|)
    ensures BlockOk(InitTags(|mem|), |mem|, h) && TagOk(InitMem(mem), InitTags(|mem|), h)
    ensures RightTaken(InitTags(|mem|), h)
  {
    assert h == 0 || h == 2 || h == |mem| - 2;
  }

  lemma InitLinks(mem: seq<int>)
    requires 8 <= |mem|
    ensures Links(InitMem(mem), 2, [2]) && Listed(InitTags(|mem|), [2], {})
  {
    var tags := InitTags(|mem|);
    assert LinkOk(InitMem(mem), [2], 0) && FreeAt(tags, [2], {}, 0);
    forall h | h in tags && tags[h] > 0 ensures InList([2], h) { assert [2][0] == 2; }
  }

  /** heapInit establishes the invariant. */
  lemma InitGood(mem: seq<int>)
    requires 8 <= |mem|
    ensures |InitMem(mem)| == |mem| && Good(InitMem(mem), 2, InitTags(|mem|), [2])
  {
    InitLinks(mem);
    var tags := InitTags(|mem|);
    forall h | h in tags
      ensures BlockOk(tags, |mem|, h) && TagOk(InitMem(mem), tags, h) && RightTaken(tags, h)
    {
      InitTagOk(mem, h);
    }
    forall h, g | h in tags && g in tags && h != g ensures Apart(tags, h, g) {
      assert (h == 0 || h == 2 || h == |mem| - 2) && (g == 0 || g == 2 || g == |mem| - 2);
    }
  }

  /** The words and list head after `ints` words were carved out of block `it` of `sz` words. */
  function CarveMem(mem: seq<int>, avail: int, it: int, sz: int, ints: int): seq<int>
    requires CanUnlink(mem, it) && 4 <= ints <= sz && it + sz <= |mem|
    requires |UnlinkMem(mem, it)| == |mem| && LinkCell(mem, UnlinkAvail(mem, avail, it))
  {
    var m := UnlinkMem(mem, it);
    if sz - ints >= 4
    then PushMem(TakeMem(m, it, ints), UnlinkAvail(mem, avail, it), it + ints, sz - ints)
    else TakeMem(m, it, sz)
  }

  function CarveAvail(mem: seq<int>, avail: int, it: int, sz: int, ints: int): int
    requires CanUnlink(mem, it)
  {
    if sz - ints >= 4 then it + ints else UnlinkAvail(mem, avail, it)
  }

  function CarveOrder(order: seq<int>, k: int, it: int, sz: int, ints: int): seq<int>
    requires 0 <= k < |order|
  {
    (if sz - ints >= 4 then [it + ints] else []) + Without(order, k)
  }

  lemma CarveDefined(mem: seq<int>, avail: int, tags: Tags, order: seq<int>, k: int)
    requires Good(mem, avail, tags, order) && 0 <= k < |order|
    ensures 0 < order[k] && order[k] in tags && CanUnlink(mem, order[k]) && order[k] + tags[order[k]] <= |mem|
    ensures |UnlinkMem(mem, order[k])| == |mem| && LinkCell(mem, UnlinkAvail(mem, avail, order[k]))
  {
    UnlinkDefined(mem, avail, order, k);
    UnlinkTouches(mem, avail, order, k);
    assert FreeAt(tags, order, {}, k);
    assert BlockOk(tags, |mem|, order[k]);
    assert LinkOk(mem, order, 0);
  }

  lemma ListIndex(tags: Tags, order: seq<int>, omit: set<int>, h: int) returns (k: int)
    requires Listed(tags, order, omit) && IsFree(tags, h) && h !in omit
    ensures 0 <= k < |order| && order[k] == h
  {
    assert InList(order, h);
    k :| 0 <= k < |order| && order[k] == h;
  }

  lemma CarveKeepsLive(tags: Tags, len: int, it: int, ints: int)
    requires Tiling(tags, len) && it in tags && 4 <= ints <= tags[it]
    ensures forall h {:trigger h in AllocTags(tags, it, ints)} ::
              h in tags && tags[h] < 0 ==> h in AllocTags(tags, it, ints) && AllocTags(tags, it, ints)[h] == tags[h]
  {
    forall h | h in tags && tags[h] < 0 ensures h != it + ints || tags[it] - ints < 4 {
      assert Apart(tags, h, it) && BlockOk(tags, len, it) && BlockOk(tags, len, h);
    }
  }

  /** Unlinking the block and tagging it taken leaves only the remainder to be listed. */
  lemma CarveTakes(mem: seq<int>, avail: int, tags: Tags, order: seq<int>, k: int, ints: int)
    requires Good(mem, avail, tags, order) && 0 <= k < |order| && order[k] in tags
    requires 4 <= ints <= tags[order[k]] && order[k] + tags[order[k]] <= |mem|
    requires CanUnlink(mem, order[k]) && |UnlinkMem(mem, order[k])| == |mem|
    ensures var it := order[k];
            var m2 := TakeMem(UnlinkMem(mem, it), it, Granted(tags, it, ints));
            && Partial(m2, UnlinkAvail(mem, avail, it), AllocTags(tags, it, ints), Without(order, k),
                       Remainder(tags, it, ints))
            && LiveKept(mem, m2, tags, {})
  {
    var it := order[k];
    var m1 := UnlinkMem(mem, it);
    UnlinkKeeps(mem, avail, tags, order, {}, k);
    assert {} + {it} == {it};
    TakeKeeps(m1, UnlinkAvail(mem, avail, it), tags, Without(order, k), it, ints);
    LiveKeptTrans(mem, m1, TakeMem(m1, it, Granted(tags, it, ints)), tags, tags, {});
  }

  /** The remainder goes back on the list. */
  lemma CarveSplits(mem: seq<int>, avail: int, tags: Tags, order: seq<int>, it: int, ints: int, m2: seq<int>)
    requires Tiling(tags, |mem|) && it in tags && 4 <= ints && 4 <= tags[it] - ints
    requires LiveKept(mem, m2, tags, {}) && Partial(m2, avail, AllocTags(tags, it, ints), order, {it + ints})
    ensures var n := tags[it] - ints;
            && 0 < it + ints && LinkCell(m2, avail) && it + ints + n <= |m2|
            && Partial(PushMem(m2, avail, it + ints, n), it + ints, AllocTags(tags, it, ints), [it + ints] + order, {})
            && LiveKept(mem, PushMem(m2, avail, it + ints, n), tags, {})
  {
    var tags' := AllocTags(tags, it, ints);
    PushKeeps(m2, avail, tags', order, it + ints);
    CarveKeepsLive(tags, |mem|, it, ints);
    LiveKeptTrans(mem, m2, PushMem(m2, avail, it + ints, tags[it] - ints), tags, tags', {});
  }

  /** Carving keeps the whole invariant and every word of every other live block. */
  lemma CarveKeeps(mem: seq<int>, avail: int, tags: Tags, order: seq<int>, k: int, ints: int)
    requires Good(mem, avail, tags, order) && 0 <= k < |order| && order[k] in tags
    requires 4 <= ints <= tags[order[k]] && order[k] + tags[order[k]] <= |mem|
    requires CanUnlink(mem, order[k]) && |UnlinkMem(mem, order[k])| == |mem|
    requires LinkCell(mem, UnlinkAvail(mem, avail, order[k]))
    ensures var it, sz := order[k], tags[order[k]];
            && Good(CarveMem(mem, avail, it, sz, ints), CarveAvail(mem, avail, it, sz, ints),
                    AllocTags(tags, it, ints), CarveOrder(order, k, it, sz, ints))
            && LiveKept(mem, CarveMem(mem, avail, it, sz, ints), tags, {})
  {
    var it, sz := order[k], tags[order[k]];
    CarveTakes(mem, avail, tags, order, k, ints);
    AllocTiles(tags, |mem|, it, ints);
    if sz - ints >= 4 {
      CarveSplits(mem, UnlinkAvail(mem, avail, it), tags, Without(order, k), it, ints,
                  TakeMem(UnlinkMem(mem, it), it, ints));
    } else {
      assert [] + Without(order, k) == Without(order, k);
    }
  }

  /** Live blocks other than the freed one keep their tag through the merge. */
  lemma ReleaseKeepsLive(tags: Tags, len: int, g: int, h: int)
    requires Tiling(tags, len) && LeftOf(tags, g, h) && Live(tags, len, h)
    ensures forall x {:trigger x in ReleaseTags(tags, g, h)} ::
              x in tags && tags[x] < 0 && x != h ==>
              x in ReleaseTags(tags, g, h) && ReleaseTags(tags, g, h)[x] == tags[x]
  {
    forall x | x in tags && tags[x] < 0 && x != h
      ensures x !in Absorbed(tags, h) && x != MergeStart(tags, g, h)
    {
    }
  }

  /** `tags'` is `tags` with `h` freed and merged with its free neighbours. */
  ghost predicate Released(tags: Tags, tags': Tags, h: int) {
    exists g {:trigger LeftOf(tags, g, h)} :: LeftOf(tags, g, h) && tags' == ReleaseTags(tags, g, h)
  }

  /** What free reads around a live block: its own tag, the footer on its left, the header on its right. */
  lemma FreeReads(mem: seq<int>, avail: int, tags: Tags, order: seq<int>, h: int) returns (g: int)
    requires Good(mem, avail, tags, order) && Live(tags, |mem|, h)
    ensures LeftOf(tags, g, h) && 0 <= g && RightOf(tags, h) in tags && RightOf(tags, h) < |mem|
    ensures mem[h] == tags[h] && mem[h - 1] == tags[g] && mem[g] == tags[g]
    ensures mem[RightOf(tags, h)] == tags[RightOf(tags, h)]
    ensures IsFree(tags, g) ==> g in order
    ensures IsFree(tags, RightOf(tags, h)) ==> RightOf(tags, h) in order
  {
    g := LeftNeighbour(tags, |mem|, h);
    assert IsFree(tags, g) ==> InList(order, g);
    assert IsFree(tags, RightOf(tags, h)) ==> InList(order, RightOf(tags, h));
    assert TagOk(mem, tags, h) && BlockOk(tags, |mem|, h);
    assert TagOk(mem, tags, g) && BlockOk(tags, |mem|, g);
    assert TagOk(mem, tags, RightOf(tags, h)) && BlockOk(tags, |mem|, RightOf(tags, h));
  }

  /** A free block that was not taken off the list is on it. */
  lemma StillListed(tags: Tags, order: seq<int>, omit: set<int>, h: int)
    requires Listed(tags, order, omit) && IsFree(tags, h) && h !in omit
    ensures h in order
  {
    assert InList(order, h);
  }

  /** The last step of free: with the neighbours unlinked, pushing the merged block restores the invariant. */
  lemma ReleaseCompletes(mem: seq<int>, avail: int, tags: Tags, order: seq<int>, g: int, h: int)
    requires NoAdjacentFree(tags) && LeftOf(tags, g, h) && Live(tags, |mem|, h)
    requires Partial(mem, avail, tags, order, Unlisted(tags, g, h))
    ensures var s, n := MergeStart(tags, g, h), MergeSize(tags, g, h);
            && 0 < s && 4 <= n && LinkCell(mem, avail) && s + n <= |mem|
            && Good(PushMem(mem, avail, s, n), s, ReleaseTags(tags, g, h), [s] + order)
            && LiveKept(mem, PushMem(mem, avail, s, n), tags, {h})
  {
    var s, n, tags' := MergeStart(tags, g, h), MergeSize(tags, g, h), ReleaseTags(tags, g, h);
    ReleaseTiles(tags, |mem|, g, h);
    ReleaseKeeps(mem, avail, tags, order, g, h);
    MergeFacts(tags, |mem|, g, h);
    PushKeeps(mem, avail, tags', order, s);
    ReleaseKeepsLive(tags, |mem|, g, h);
    LiveKeptRefl(mem, tags, {h});
    LiveKeptTrans(mem, mem, PushMem(mem, avail, s, n), tags, tags', {h});
  }

  lemma LiveKeptRefl(mem: seq<int>, tags: Tags, except: set<int>)
    ensures LiveKept(mem, mem, tags, except)
  {
  }

  /** `mem'` differs from `mem` only inside the payload of block `h` of `n` words. */
  ghost predicate OnlyPayload(mem: seq<int>, mem': seq<int>, h: int, n: int) {
    |mem'| == |mem| && forall i :: 0 <= i < |mem| && !(h < i < h + n - 1) ==> mem'[i] == mem[i]
  }

  /** A program that writes only inside a live payload cannot disturb the heap. */
  lemma PayloadWritesKeep(mem: seq<int>, mem': seq<int>, avail: int, tags: Tags, order: seq<int>, h: int)
    requires Good(mem, avail, tags, order) && Live(tags, |mem|, h) && OnlyPayload(mem, mem', h, Abs(tags[h]))
    ensures Good(mem', avail, tags, order) && LiveKept(mem, mem', tags, {h})
  {
    forall x | x in tags
      ensures TagOk(mem', tags, x) && (x != h ==> WordsKept(mem, mem', x, Abs(tags[x])))
    {
      assert TagOk(mem, tags, x) && BlockOk(tags, |mem|, x) && BlockOk(tags, |mem|, h);
      if x != h { assert Apart(tags, x, h); }
    }
    forall k | 0 <= k < |order| ensures LinkOk(mem', order, k) {
      assert LinkOk(mem, order, k);
      ListedApart(tags, |mem|, order, {}, k, h);
    }
  }

  // ---------------------------------------------------------------- whole steps

  /** The words, the list head, and what they stand for. */
  datatype State = State(mem: seq<int>, avail: int, tags: Tags, order: seq<int>)

  ghost predicate GoodState(s: State) { Good(s.mem, s.avail, s.tags, s.order) }

  /** heapInit over words `mem`. */
  ghost function InitState(mem: seq<int>): State
    requires 8 <= |mem|
  {
    State(InitMem(mem), 2, InitTags(|mem|), [2])
  }

  /** Carving `ints` words out of the k-th listed block, word by word as malloc does it. */
  ghost predicate Carved(s: State, k: int, ints: int, s': State) {
    && 0 <= k < |s.order| && s.order[k] in s.tags
    && var it, sz := s.order[k], s.tags[s.order[k]];
    && 4 <= ints <= sz && it + sz <= |s.mem| && CanUnlink(s.mem, it)
    && |UnlinkMem(s.mem, it)| == |s.mem| && LinkCell(s.mem, UnlinkAvail(s.mem, s.avail, it))
    && s' == State(CarveMem(s.mem, s.avail, it, sz, ints), CarveAvail(s.mem, s.avail, it, sz, ints),
                   AllocTags(s.tags, it, ints), CarveOrder(s.order, k, it, sz, ints))
  }

  ghost predicate CarveStep(s: State, it: int, ints: int, s': State) {
    exists k :: 0 <= k < |s.order| && s.order[k] == it && Carved(s, k, ints, s')
  }

  /** `remove` of the k-th listed block. */
  ghost predicate Unlinked(s: State, k: int, s': State) {
    && 0 <= k < |s.order| && CanUnlink(s.mem, s.order[k])
    && s' == State(UnlinkMem(s.mem, s.order[k]), UnlinkAvail(s.mem, s.avail, s.order[k]), s.tags, Without(s.order, k))
  }

  /** `remove` of neighbour `x` if it is free. */
  ghost predicate Detached(s: State, x: int, s': State) {
    if IsFree(s.tags, x) then exists k :: 0 <= k < |s.order| && s.order[k] == x && Unlinked(s, k, s') else s' == s
  }

  /** `makeAvail` of the block that `h` merges into. */
  ghost predicate Pushed(s: State, g: int, h: int, s': State) {
    && h in s.tags
    && var start, n := MergeStart(s.tags, g, h), MergeSize(s.tags, g, h);
    && 0 <= start && 4 <= n && start + n <= |s.mem| && LinkCell(s.mem, s.avail)
    && s' == State(PushMem(s.mem, s.avail, start, n), start, ReleaseTags(s.tags, g, h), [start] + s.order)
  }

  /** Freeing live block `h`, word by word as free does it. */
  ghost predicate ReleaseStep(s: State, h: int, s': State) {
    exists g, s1, s2 :: ReleaseVia(s, g, h, s1, s2, s')
  }

  ghost predicate ReleaseVia(s: State, g: int, h: int, s1: State, s2: State, s': State) {
    && LeftOf(s.tags, g, h)
    && Detached(s, g, s1) && Detached(s1, RightOf(s.tags, h), s2) && Pushed(s2, g, h, s')
  }

  /** Malloc's carving keeps the whole invariant and every live word. */
  lemma CarveStepKeeps(s: State, it: int, ints: int, s': State)
    requires GoodState(s) && CarveStep(s, it, ints, s')
    ensures GoodState(s') && it in s.tags && 4 <= ints <= s.tags[it] && s'.tags == AllocTags(s.tags, it, ints)
    ensures LiveKept(s.mem, s'.mem, s.tags, {})
  {
    var k :| 0 <= k < |s.order| && s.order[k] == it && Carved(s, k, ints, s');
    CarveKeeps(s.mem, s.avail, s.tags, s.order, k, ints);
  }

  /** `remove` in the middle of free: the list loses that block, the tags `g` and `r` and all live words stay. */
  lemma UnlinkedKeeps(s: State, k: int, s': State, omit: set<int>, g: int, r: int)
    requires Partial(s.mem, s.avail, s.tags, s.order, omit) && Unlinked(s, k, s')
    requires g in s.tags && r in s.tags && 0 <= g < |s.mem| && 0 <= r < |s.mem|
    ensures Partial(s'.mem, s'.avail, s.tags, s'.order, omit + {s.order[k]}) && Detached(s, s.order[k], s')
    ensures LiveKept(s.mem, s'.mem, s.tags, {}) && |s'.mem| == |s.mem|
    ensures s'.mem[g] == s.mem[g] && s'.mem[r] == s.mem[r]
  {
    assert FreeAt(s.tags, s.order, omit, k);
    assert BlockOk(s.tags, |s.mem|, g) && BlockOk(s.tags, |s.mem|, r);
    UnlinkKeeps(s.mem, s.avail, s.tags, s.order, omit, k);
    assert TagKept(s.mem, s'.mem, g, Abs(s.tags[g])) && TagKept(s.mem, s'.mem, r, Abs(s.tags[r]));
  }

  lemma DetachedKeeps(s: State, x: int, s': State, omit: set<int>)
    requires Partial(s.mem, s.avail, s.tags, s.order, omit) && Detached(s, x, s')
    ensures s'.tags == s.tags && LiveKept(s.mem, s'.mem, s.tags, {})
    ensures Partial(s'.mem, s'.avail, s.tags, s'.order, omit + if IsFree(s.tags, x) then {x} else {})
  {
    if IsFree(s.tags, x) {
      var k :| 0 <= k < |s.order| && s.order[k] == x && Unlinked(s, k, s');
      UnlinkKeeps(s.mem, s.avail, s.tags, s.order, omit, k);
    } else {
      LiveKeptRefl(s.mem, s.tags, {});
      assert omit + {} == omit;
    }
  }

  /** With both free neighbours unlinked, exactly they are off the list. */
  lemma NeighboursDetached(s: State, g: int, h: int, s1: State, s2: State)
    requires GoodState(s) && h in s.tags && Detached(s, g, s1) && Detached(s1, RightOf(s.tags, h), s2)
    ensures s2.tags == s.tags && LiveKept(s.mem, s2.mem, s.tags, {})
    ensures Partial(s2.mem, s2.avail, s.tags, s2.order, Unlisted(s.tags, g, h))
  {
    var r := RightOf(s.tags, h);
    DetachedKeeps(s, g, s1, {});
    var left, right := if IsFree(s.tags, g) then {g} else {}, if IsFree(s.tags, r) then {r} else {};
    DetachedKeeps(s1, r, s2, {} + left);
    assert {} + left + right == Unlisted(s.tags, g, h);
    LiveKeptTrans(s.mem, s1.mem, s2.mem, s.tags, s.tags, {});
  }

  /** Free keeps the whole invariant and every word of the other live blocks. */
  lemma ReleaseStepKeeps(s: State, h: int, s': State)
    requires GoodState(s) && Live(s.tags, |s.mem|, h) && ReleaseStep(s, h, s')
    ensures GoodState(s') && Released(s.tags, s'.tags, h) && LiveKept(s.mem, s'.mem, s.tags, {h})
  {
    var g, s1, s2 :| ReleaseVia(s, g, h, s1, s2, s');
    NeighboursDetached(s, g, h, s1, s2);
    ReleaseCompletes(s2.mem, s2.avail, s.tags, s2.order, g, h);
    LiveKeptExcept(s.mem, s2.mem, s'.mem, s.tags, h);
  }

  lemma LiveKeptExcept(m0: seq<int>, m1: seq<int>, m2: seq<int>, tags: Tags, h: int)
    requires LiveKept(m0, m1, tags, {}) && LiveKept(m1, m2, tags, {h})
    ensures LiveKept(m0, m2, tags, {h})
  {
    forall x | x in tags && x != h && tags[x] < 0 ensures WordsKept(m0, m2, x, Abs(tags[x])) {
      assert WordsKept(m0, m1, x, Abs(tags[x])) && WordsKept(m1, m2, x, Abs(tags[x]));
    }
  }
}

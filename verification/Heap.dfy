/** The kernel and user heaps: one array of words, updated in place. */
module Heap {
  import opened Lists
  import opened HeapSpec
  import opened HeapMoves
  import opened HeapSearch
  import opened HeapOps
  import opened Bytes

  /** A pointer, as a word index from the array base; `Word(0)` is the base itself. */
  datatype Ptr = Null | Word(i: int)

  class Heap {
    const a: array<int>
    var avail: int
    ghost var tags: Tags
    ghost var order: seq<int>

    ghost function View(): State
      reads this, a
    {
      State(a[..], avail, tags, order)
    }

    ghost predicate Valid()
      reads this, a
    {
      a.Length < 0x4000_0000 && Good(a[..], avail, tags, order)
    }

    /** heapInit: two taken sentinels around one free block. */
    constructor (region: array<int>)
      requires 8 <= region.Length < 0x4000_0000
      modifies region
      ensures a == region && Valid() && tags == InitTags(region.Length) && order == [2]
    {
      a := region;
      avail := 0;
      tags := InitTags(region.Length);
      order := [2];
      new;
      ghost var mem := a[..];
      MakeTaken(0, 2);
      MakeAvail(2, a.Length - 4);
      MakeTaken(a.Length - 2, 2);
      InitGood(mem);
    }

    method MakeTaken(i: int, ints: int)
      requires 0 <= i && 1 <= ints && i + ints <= a.Length
      modifies a
      ensures a[..] == TakeMem(old(a[..]), i, ints)
    {
      a[i] := -ints;
      a[i + Abs(a[i]) - 1] := -ints;
    }

    method MakeAvail(i: int, ints: int)
      requires 0 <= i && 4 <= ints && i + ints <= a.Length && LinkCell(a[..], avail)
      modifies a, this`avail
      ensures a[..] == PushMem(old(a[..]), old(avail), i, ints) && avail == i
    {
      a[i] := ints;
      a[i + Abs(a[i]) - 1] := ints;
      a[i + 1] := avail;
      a[i + 2] := 0;
      if avail != 0 {
        a[avail + 2] := i;
      }
      avail := i;
    }

    method Remove(i: int)
      requires CanUnlink(a[..], i)
      modifies a, this`avail
      ensures a[..] == UnlinkMem(old(a[..]), i) && avail == UnlinkAvail(old(a[..]), old(avail), i)
    {
      var prevIndex := a[i + 2];
      var nextIndex := a[i + 1];
      if prevIndex == 0 {
        avail := nextIndex;
      } else {
        a[prevIndex + 1] := nextIndex;
      }
      if nextIndex != 0 {
        a[nextIndex + 2] := prevIndex;
      }
    }

    /** The writes of malloc once block `it` of `sz` words was chosen. */
    method CarveWords(it: int, sz: int, ints: int)
      requires CanUnlink(a[..], it) && 4 <= ints <= sz && it + sz <= a.Length
      requires |UnlinkMem(a[..], it)| == a.Length && LinkCell(a[..], UnlinkAvail(a[..], avail, it))
      modifies a, this`avail
      ensures a[..] == CarveMem(old(a[..]), old(avail), it, sz, ints)
      ensures avail == CarveAvail(old(a[..]), old(avail), it, sz, ints)
    {
      Remove(it);
      var extra := sz - ints;
      if extra >= 4 {
        MakeTaken(it, ints);
        MakeAvail(it + ints, extra);
      } else {
        MakeTaken(it, sz);
      }
    }

    /** Takes `ints` words from free block `it` of `sz` words. */
    method Carve(it: int, sz: int, ints: int)
      requires Valid() && it in tags && tags[it] == sz && 4 <= ints <= sz
      modifies this, a
      ensures Valid() && tags == AllocTags(old(tags), it, ints)
      ensures CarveStep(old(View()), it, ints, View()) && LiveKept(old(a[..]), a[..], old(tags), {})
    {
      ghost var s := View();
      ghost var k := ListIndex(tags, order, {}, it);
      CarveDefined(a[..], avail, tags, order, k);
      CarveWords(it, sz, ints);
      order := CarveOrder(order, k, it, sz, ints);
      tags := AllocTags(tags, it, ints);
      assert Carved(s, k, ints, View());
      CarveStepKeeps(s, it, ints, View());
    }

    /** Kernel search: the first of the smallest among the first twenty fitting blocks. */
    method FindBest(ints: int) returns (it: int, mx: int)
      requires Valid() && 4 <= ints
      ensures it == 0 <==> NoneFits(tags, ints)
      ensures it != 0 ==> FirstSmallest(Candidates(order, tags, ints), tags, it) && mx == tags[it] && ints <= mx
    {
      it, mx := 0, MAX_BLOCK;
      BothFailTogether(a[..], avail, tags, order, ints);
      var countDown, p := CANDIDATES, avail;
      ghost var k, seen := 0, [];
      while p != 0
        invariant 0 <= k <= |order| && p == At(order, k)
        invariant seen == Fitting(order[..k], tags, ints) && |seen| == CANDIDATES - countDown && 0 < countDown
        invariant Leads(seen, tags, ints, it, mx)
        decreases |order| - k
      {
        SearchStep(a[..], avail, tags, order, k, ints);
        var sz := Abs(a[p]);
        k := k + 1;
        if sz >= ints {
          LeadsOn(seen, tags, ints, it, mx, p);
          seen := seen + [p];
          if sz < mx {
            mx := sz;
            it := p;
          }
          countDown := countDown - 1;
          if countDown == 0 { break; }
        }
        p := a[p + 1];
      }
      if p == 0 { ListEnds(a[..], avail, order, k); }
      SeenIsCandidates(order, tags, ints, k);
    }

    /** User search: the first fitting block. */
    method FindFirst(ints: int) returns (it: int, sz: int)
      requires Valid() && 4 <= ints
      ensures it == 0 <==> NoneFits(tags, ints)
      ensures it != 0 ==> Fitting(order, tags, ints) != [] && it == Fitting(order, tags, ints)[0]
      ensures it != 0 ==> it in tags && sz == tags[it] && ints <= sz
    {
      it, sz := avail, 0;
      ghost var k := 0;
      while it != 0
        invariant 0 <= k <= |order| && it == At(order, k)
        invariant Fitting(order[..k], tags, ints) == []
        decreases |order| - k
      {
        FirstStep(a[..], avail, tags, order, k, ints);
        sz := Abs(a[it]);
        if sz >= ints { return; }
        k := k + 1;
        it := a[it + 1];
      }
      FirstEnds(a[..], avail, tags, order, k, ints);
    }

    /** Kernel malloc. */
    method MallocBest(bytes: int) returns (res: Ptr)
      requires Valid() && 0 <= bytes < WORD_MAX
      modifies this, a
      ensures Valid()
      ensures bytes == 0 ==> res == Word(0)
      ensures bytes == 0 || res == Null ==> a[..] == old(a[..]) && tags == old(tags) && order == old(order)
      ensures bytes != 0 ==> (res == Null <==> NoneFits(old(tags), IntsFor(bytes)))
      ensures 0 < bytes <= WORD_MAX - 4 ==> (res == Null <==> NoPayload(old(tags), bytes))
      ensures bytes != 0 && res != Null ==>
                && FirstSmallest(Candidates(old(order), old(tags), IntsFor(bytes)), old(tags), res.i - 1)
                && Allocated(old(tags), tags, res.i - 1, bytes)
                && CarveStep(old(View()), res.i - 1, IntsFor(bytes), View())
                && LiveKept(old(a[..]), a[..], old(tags), {})
    {
      if bytes == 0 { return Word(0); }
      var ints := ((bytes + 3) % WORD_MAX) / 4 + 2;
      if ints < 4 { ints := 4; }
      if bytes <= WORD_MAX - 4 { FailsWhen(tags, a.Length, bytes); }
      res := Null;
      var it, mx := FindBest(ints);
      if it != 0 {
        Carve(it, mx, ints);
        res := Word(it + 1);
      }
    }

    /** User malloc. */
    method MallocFirst(bytes: int) returns (res: Ptr)
      requires Valid() && 0 <= bytes < WORD_MAX
      modifies this, a
      ensures Valid()
      ensures bytes == 0 ==> res == Word(0)
      ensures bytes == 0 || res == Null ==> a[..] == old(a[..]) && tags == old(tags) && order == old(order)
      ensures bytes != 0 ==> (res == Null <==> NoneFits(old(tags), IntsFor(bytes)))
      ensures 0 < bytes <= WORD_MAX - 4 ==> (res == Null <==> NoPayload(old(tags), bytes))
      ensures bytes != 0 && res != Null ==>
                && Fitting(old(order), old(tags), IntsFor(bytes)) != []
                && res.i - 1 == Fitting(old(order), old(tags), IntsFor(bytes))[0]
                && Allocated(old(tags), tags, res.i - 1, bytes)
                && CarveStep(old(View()), res.i - 1, IntsFor(bytes), View())
                && LiveKept(old(a[..]), a[..], old(tags), {})
    {
      if bytes == 0 { return Word(0); }
      var ints := ((bytes + 3) % WORD_MAX) / 4 + 2;
      if ints < 4 { ints := 4; }
      if bytes <= WORD_MAX - 4 { FailsWhen(tags, a.Length, bytes); }
      res := Null;
      var it, sz := FindFirst(ints);
      if it != 0 {
        Carve(it, sz, ints);
        res := Word(it + 1);
      }
    }

    /** Unlinks a listed block in the middle of an operation. */
    method Detach(h: int, ghost omit: set<int>, ghost g: int, ghost r: int)
      requires Partial(a[..], avail, tags, order, omit) && h in order
      requires g in tags && r in tags && 0 <= g < r < a.Length
      modifies a, this`avail, this`order
      ensures Partial(a[..], avail, tags, order, omit + {h})
      ensures Detached(old(View()), h, View()) && LiveKept(old(a[..]), a[..], tags, {})
      ensures a[g] == old(a[g]) && a[r] == old(a[r])
    {
      ghost var s := View();
      ghost var k :| 0 <= k < |order| && order[k] == h;
      UnlinkDefined(a[..], avail, order, k);
      Remove(h);
      order := Without(order, k);
      assert Unlinked(s, k, View());
      UnlinkedKeeps(s, k, View(), omit, g, r);
    }

    /** Takes the free neighbours of live block `h` off the list; returns the merged block. */
    method AbsorbNeighbours(h: int, leftIndex: int, rightIndex: int) returns (idx: int, sz: int, ghost mid: State)
      requires Valid() && Live(tags, a.Length, h) && LeftOf(tags, leftIndex, h) && rightIndex == RightOf(tags, h)
      requires rightIndex in tags && 0 <= leftIndex && rightIndex < a.Length
      requires a[h] == tags[h] && a[leftIndex] == tags[leftIndex] && a[rightIndex] == tags[rightIndex]
      requires IsFree(tags, leftIndex) ==> leftIndex in order
      modifies a, this`avail, this`order
      ensures Partial(a[..], avail, tags, order, Unlisted(tags, leftIndex, h))
      ensures idx == MergeStart(tags, leftIndex, h) && sz == MergeSize(tags, leftIndex, h)
      ensures Detached(old(View()), leftIndex, mid) && Detached(mid, rightIndex, View())
      ensures LiveKept(old(a[..]), a[..], tags, {})
    {
      idx, sz := h, Abs(a[h]);
      ghost var omit, m0 := {}, a[..];
      LiveKeptRefl(m0, tags, {});
      if a[leftIndex] > 0 {
        Detach(leftIndex, {}, leftIndex, rightIndex);
        omit := {leftIndex};
        assert {} + {leftIndex} == omit;
        idx := leftIndex;
        sz := sz + Abs(a[leftIndex]);
      }
      mid := View();
      ghost var m1 := a[..];
      if a[rightIndex] > 0 {
        StillListed(tags, order, omit, rightIndex);
        Detach(rightIndex, omit, leftIndex, rightIndex);
        LiveKeptTrans(m0, m1, a[..], tags, tags, {});
        omit := omit + {rightIndex};
        sz := sz + Abs(a[rightIndex]);
      }
      assert omit == Unlisted(tags, leftIndex, h);
    }

    /** free of a block boundary: a live block merges with its free neighbours, a free one is refused. */
    method Free(p: Ptr) returns (ok: bool)
      requires Valid()
      requires p == Null || p == Word(0) || (p.i - 1 in tags && p.i - 1 != 0 && p.i - 1 != a.Length - 2)
      modifies this, a
      ensures Valid()
      ensures p == Null || p == Word(0) || old(tags)[p.i - 1] > 0 ==>
                a[..] == old(a[..]) && tags == old(tags) && order == old(order)
      ensures ok <==> p == Null || p == Word(0) || old(tags)[p.i - 1] < 0
      ensures p != Null && p != Word(0) && old(tags)[p.i - 1] < 0 ==>
                && Released(old(tags), tags, p.i - 1)
                && ReleaseStep(old(View()), p.i - 1, View())
                && LiveKept(old(a[..]), a[..], old(tags), {p.i - 1})
    {
      if p == Null || p == Word(0) { return true; }
      var idx := p.i - 1;
      assert TagOk(a[..], tags, idx) && BlockOk(tags, a.Length, idx);
      if !(a[idx] < 0) { return false; }
      ghost var h, m0 := idx, a[..];
      ghost var g := FreeReads(m0, avail, tags, order, h);
      var leftIndex := idx - 1 - Abs(a[idx - 1]) + 1;
      var rightIndex := idx + Abs(a[idx]);
      ghost var s, mid := View(), View();
      var sz;
      idx, sz, mid := AbsorbNeighbours(idx, leftIndex, rightIndex);
      ghost var s2 := View();
      ReleaseCompletes(a[..], avail, tags, order, g, h);
      ghost var m1 := a[..];
      MakeAvail(idx, sz);
      LiveKeptExcept(m0, m1, a[..], tags, h);
      order := [idx] + order;
      tags := ReleaseTags(tags, g, h);
      assert ReleaseVia(s, g, h, mid, s2, View());
      ok := true;
    }

    /** memcpy of `m` bytes between word-aligned regions that do not overlap, byte by byte. */
    method CopyBytes(dst: int, src: int, m: int)
      requires 0 <= m && 0 <= dst && 0 <= src
      requires dst + (m + 3) / 4 <= a.Length && src + (m + 3) / 4 <= a.Length
      requires dst + (m + 3) / 4 <= src || src + (m + 3) / 4 <= dst
      modifies a
      ensures |a[..]| == |old(a[..])| && OnlySpan(old(a[..]), a[..], dst, m)
      ensures SameBytes(old(a[..]), src, a[..], dst, m)
    {
      ghost var m0 := a[..];
      CopyWords(dst, src, m);
      CopyArrives(m0, a[..], dst, src, m);
    }

    /** The same, word by word: whole words, then the low bytes of one more. */
    method CopyWords(dst: int, src: int, m: int)
      requires 0 <= m && 0 <= dst && 0 <= src
      requires dst + (m + 3) / 4 <= a.Length && src + (m + 3) / 4 <= a.Length
      requires dst + (m + 3) / 4 <= src || src + (m + 3) / 4 <= dst
      modifies a
      ensures Copied(old(a[..]), a[..], dst, src, m)
    {
      var w := 0;
      while w < m / 4
        invariant 0 <= w <= m / 4
        invariant forall i :: dst <= i < dst + w ==> a[i] == old(a[src + (i - dst)])
        invariant forall i :: 0 <= i < a.Length && !(dst <= i < dst + w) ==> a[i] == old(a[i])
      {
        a[dst + w] := a[src + w];
        w := w + 1;
      }
      if m % 4 != 0 {
        a[dst + w] := MergeLow(a[dst + w], a[src + w], m % 4);
      }
    }

    /** realloc's copy from live block `h` to live block `q`. */
    method CopyInto(q: int, h: int, newSize: int)
      requires Valid() && Live(tags, a.Length, h) && Live(tags, a.Length, q) && q != h && 0 < newSize
      requires CopyLength(Abs(tags[h]), newSize) <= 4 * (Abs(tags[q]) - 2)
      modifies a
      ensures Valid() && LiveKept(old(a[..]), a[..], tags, {q})
      ensures Arrived(old(a[..]), a[..], tags, h, q, newSize)
    {
      ghost var s := View();
      MoveFits(s.mem, tags, h, q, newSize);
      var sz := Abs(a[h]) * 4;
      var m := if newSize > sz then sz else newSize;
      assert m == CopyLength(Abs(s.tags[h]), newSize);
      CopyBytes(q + 1, h + 1, m);
      CopyLands(s, a[..], h, q, newSize);
    }

    /** Copies the old contents of live block `h` into live block `q` and frees `h`. */
    method MoveInto(q: int, h: int, newSize: int)
      requires Valid() && Live(tags, a.Length, h) && Live(tags, a.Length, q) && q != h && 0 < newSize
      requires CopyLength(Abs(tags[h]), newSize) <= 4 * (Abs(tags[q]) - 2)
      modifies this, a
      ensures Valid() && Released(old(tags), tags, h)
      ensures LiveKept(old(a[..]), a[..], old(tags), {h, q})
      ensures Arrived(old(a[..]), a[..], old(tags), h, q, newSize)
      ensures RightOf(old(tags), h) in old(tags) && 2 <= Abs(old(tags)[h])
      ensures Spilled(a[..], q, Abs(old(tags)[h]), newSize, old(tags)[h], old(tags)[RightOf(old(tags), h)])
    {
      ghost var s := View();
      CopyInto(q, h, newSize);
      ghost var m1 := a[..];
      var ok := Free(Word(h + 1));
      MovedKeepsLive(s.mem, m1, a[..], s.tags, h, q);
      StillThere(s.mem, m1, a[..], s.tags, h, q, newSize);
      TagsArrive(s, a[..], h, q, newSize);
    }

    /** The second half of realloc: block `q` was just carved out of heap `s` for the contents of `h`. */
    method MoveFrom(ghost s: State, q: int, h: int, newSize: int)
      requires Valid() && |s.mem| == a.Length && Tiling(s.tags, |s.mem|) && Live(s.tags, a.Length, h)
      requires 0 < newSize < WORD_MAX && Allocated(s.tags, tags, q, newSize) && LiveKept(s.mem, a[..], s.tags, {})
      requires Live(tags, a.Length, h) && tags[h] == s.tags[h] && Live(tags, a.Length, q) && q != h
      requires CopyLength(Abs(tags[h]), newSize) <= 4 * (Abs(tags[q]) - 2)
      modifies this, a
      ensures Valid() && LiveKept(s.mem, a[..], s.tags, {h})
      ensures Reallocated(s.mem, s.tags, a[..], tags, h, q, newSize)
    {
      ghost var m1, t1 := a[..], tags;
      MoveInto(q, h, newSize);
      ReallocKeeps(s.mem, m1, a[..], s.tags, t1, tags, h, q, newSize);
    }

    /** The first half of realloc: a block for the contents of live block `h`. */
    method NewBlock(ghost h: int, newSize: int) returns (res: Ptr)
      requires Valid() && Live(tags, a.Length, h) && 0 < newSize < WORD_MAX && ReallocSafe(tags, order, h, newSize)
      modifies this, a
      ensures Valid() && LiveKept(old(a[..]), a[..], old(tags), {})
      ensures res == Null <==> NoneFits(old(tags), IntsFor(newSize))
      ensures res == Null ==> a[..] == old(a[..]) && tags == old(tags)
      ensures res != Null ==>
                && Allocated(old(tags), tags, res.i - 1, newSize)
                && Live(tags, a.Length, h) && tags[h] == old(tags)[h]
                && Live(tags, a.Length, res.i - 1) && res.i - 1 != h
                && CopyLength(Abs(tags[h]), newSize) <= 4 * (Abs(tags[res.i - 1]) - 2)
    {
      ghost var s := View();
      LiveKeptRefl(s.mem, tags, {});
      res := MallocFirst(newSize);
      if res != Null { ReallocMoves(s, a[..], tags, h, res.i - 1, newSize); }
    }

    /** realloc of live block `idx` to a non-zero size. */
    method ReallocLive(idx: int, newSize: int) returns (res: Ptr)
      requires Valid() && Live(tags, a.Length, idx) && 0 < newSize < WORD_MAX
      requires ReallocSafe(tags, order, idx, newSize)
      modifies this, a
      ensures Valid() && LiveKept(old(a[..]), a[..], old(tags), {idx})
      ensures res == Null <==> NoneFits(old(tags), IntsFor(newSize))
      ensures res == Null ==> Released(old(tags), tags, idx)
      ensures res != Null ==> Reallocated(old(a[..]), old(tags), a[..], tags, idx, res.i - 1, newSize)
    {
      ghost var s := View();
      res := NewBlock(idx, newSize);
      if res != Null {
        MoveFrom(s, res.i - 1, idx, newSize);
      } else {
        assert BlockOk(tags, a.Length, idx);
        FreeQuietly(Word(idx + 1));
      }
    }

    /** User realloc. */
    method Realloc(p: Ptr, newSize: int) returns (res: Ptr)
      requires Valid() && 0 <= newSize < WORD_MAX
      requires p == Null || (p == Word(0) && newSize == 0) ||
               (p.Word? && p != Word(0) && p.i - 1 in tags && p.i - 1 != 0 && p.i - 1 != a.Length - 2)
      requires p.Word? && p != Word(0) && newSize != 0 && tags[p.i - 1] < 0 ==>
                 ReallocSafe(tags, order, p.i - 1, newSize)
      modifies this, a
      ensures Valid()
      ensures p == Null && newSize == 0 ==> res == Word(0)
      ensures p != Null && newSize == 0 ==> res == Null
      ensures newSize != 0 && (p == Null || old(tags)[p.i - 1] < 0) ==>
                (res == Null <==> NoneFits(old(tags), IntsFor(newSize)))
      ensures p.Word? && p != Word(0) && old(tags)[p.i - 1] > 0 ==>
                res == Null && a[..] == old(a[..]) && tags == old(tags)
      ensures p.Word? && p != Word(0) && old(tags)[p.i - 1] < 0 && res == Null ==> Released(old(tags), tags, p.i - 1)
      ensures p == Null && newSize != 0 && res != Null ==> Allocated(old(tags), tags, res.i - 1, newSize)
      ensures p.Word? && p != Word(0) && old(tags)[p.i - 1] < 0 && res != Null ==>
                Reallocated(old(a[..]), old(tags), a[..], tags, p.i - 1, res.i - 1, newSize)
      ensures p == Null ==> LiveKept(old(a[..]), a[..], old(tags), {})
      ensures p != Null ==> LiveKept(old(a[..]), a[..], old(tags), {p.i - 1})
    {
      if p == Null {
        LiveKeptRefl(a[..], tags, {});
        res := MallocFirst(newSize);
        return;
      }
      assert p == Word(0) || BlockOk(tags, a.Length, p.i - 1);
      if newSize == 0 {
        FreeQuietly(p);
        return Null;
      }
      res := ReallocBlock(p.i - 1, newSize);
    }

    /** free, for callers that ignore whether it refused. */
    method FreeQuietly(p: Ptr)
      requires Valid() && p.Word?
      requires p == Word(0) || (p.i - 1 in tags && p.i - 1 != 0 && p.i - 1 != a.Length - 2)
      modifies this, a
      ensures Valid() && LiveKept(old(a[..]), a[..], old(tags), {p.i - 1})
      ensures p == Word(0) || old(tags)[p.i - 1] > 0 ==> a[..] == old(a[..]) && tags == old(tags)
      ensures p != Word(0) && old(tags)[p.i - 1] < 0 ==> Released(old(tags), tags, p.i - 1)
    {
      LiveKeptRefl(a[..], tags, {p.i - 1});
      assert p == Word(0) || BlockOk(tags, a.Length, p.i - 1);
      var ok := Free(p);
    }

    /** realloc of the block at `idx` to a non-zero size. */
    method ReallocBlock(idx: int, newSize: int) returns (res: Ptr)
      requires Valid() && idx in tags && idx != 0 && idx != a.Length - 2 && 0 < newSize < WORD_MAX
      requires tags[idx] < 0 ==> ReallocSafe(tags, order, idx, newSize)
      modifies this, a
      ensures Valid() && LiveKept(old(a[..]), a[..], old(tags), {idx})
      ensures old(tags)[idx] > 0 ==> res == Null && a[..] == old(a[..]) && tags == old(tags)
      ensures old(tags)[idx] < 0 ==> (res == Null <==> NoneFits(old(tags), IntsFor(newSize)))
      ensures old(tags)[idx] < 0 && res == Null ==> Released(old(tags), tags, idx)
      ensures res != Null ==> Reallocated(old(a[..]), old(tags), a[..], tags, idx, res.i - 1, newSize)
    {
      LiveKeptRefl(a[..], tags, {idx});
      assert TagOk(a[..], tags, idx) && BlockOk(tags, a.Length, idx);
      if !(a[idx] < 0) { return Null; }
      res := ReallocLive(idx, newSize);
    }
  }

  // ---------------------------------------------------------------- realloc

  /** The bytes realloc copies: the old block counted with both its tags, up to the new size. */
  function CopyLength(oldWords: int, newSize: int): int {
    if newSize > 4 * oldWords then 4 * oldWords else newSize
  }

  /** The bytes realloc has to keep: as many as fit both the old payload and the new size. */
  function KeptBytes(oldWords: int, newSize: int): int {
    var payload := 4 * (oldWords - 2);
    if newSize < payload then newSize else payload
  }

  /** The copy reaches behind the old payload, by at most two words, exactly when the new size exceeds it. */
  lemma SpillsWhen(oldWords: int, newSize: int)
    requires 4 <= oldWords && 0 < newSize
    ensures CopyLength(oldWords, newSize) > 4 * (oldWords - 2) <==> newSize > 4 * (oldWords - 2)
    ensures newSize <= 4 * (oldWords - 2) ==> CopyLength(oldWords, newSize) == KeptBytes(oldWords, newSize) == newSize
    ensures newSize > 4 * (oldWords - 2) ==> KeptBytes(oldWords, newSize) == 4 * (oldWords - 2)
    ensures newSize > 4 * (oldWords - 2) ==>
              CopyLength(oldWords, newSize) - KeptBytes(oldWords, newSize) ==
              if newSize - 4 * (oldWords - 2) < 8 then newSize - 4 * (oldWords - 2) else 8
  {
  }

  /** The copy from live block `h` stays inside the block that realloc would get: the request did not wrap, or
      nothing fits, or the old block with its tags is no larger than the new payload. */
  ghost predicate ReallocSafe(tags: Tags, order: seq<int>, h: int, newSize: int)
    requires 0 < newSize < WORD_MAX
  {
    var f := Fitting(order, tags, IntsFor(newSize));
    || newSize <= WORD_MAX - 4 || f == []
    || (h in tags && f[0] in tags && Abs(tags[h]) + 2 <= Granted(tags, f[0], IntsFor(newSize)))
  }

  /** That condition is exact: outside it, the copy runs over the end of the new payload. */
  lemma ReallocSafeWhen(s: State, h: int, newSize: int)
    requires GoodState(s) && |s.mem| < 0x4000_0000 && Live(s.tags, |s.mem|, h) && 0 < newSize < WORD_MAX
    requires Fitting(s.order, s.tags, IntsFor(newSize)) != []
    ensures var q := Fitting(s.order, s.tags, IntsFor(newSize))[0];
            && q in s.tags && IntsFor(newSize) <= s.tags[q]
            && (ReallocSafe(s.tags, s.order, h, newSize) <==>
                CopyLength(Abs(s.tags[h]), newSize) <= 4 * (Granted(s.tags, q, IntsFor(newSize)) - 2))
  {
    BothFailTogether(s.mem, s.avail, s.tags, s.order, IntsFor(newSize));
    var q := Fitting(s.order, s.tags, IntsFor(newSize))[0];
    assert q in Fitting(s.order, s.tags, IntsFor(newSize));
    assert BlockOk(s.tags, |s.mem|, h);
  }

  /** A ten-word block reallocated to 2^32 - 1 bytes: 40 bytes are copied into a payload of eight. */
  lemma OverrunExample()
    ensures var tags: Tags := map[0 := -2, 2 := -10, 12 := 86, 98 := -2];
            && Tiling(tags, 100) && NoAdjacentFree(tags) && Listed(tags, [12], {}) && Live(tags, 100, 2)
            && !ReallocSafe(tags, [12], 2, WORD_MAX - 1)
            && CopyLength(10, WORD_MAX - 1) == 40 && 4 * (Granted(tags, 12, IntsFor(WORD_MAX - 1)) - 2) == 8
  {
    var tags: Tags := map[0 := -2, 2 := -10, 12 := 86, 98 := -2];
    forall h | h in tags ensures BlockOk(tags, 100, h) && RightTaken(tags, h) {
      assert h == 0 || h == 2 || h == 12 || h == 98;
    }
    forall h, g | h in tags && g in tags && h != g ensures Apart(tags, h, g) {
      assert (h == 0 || h == 2 || h == 12 || h == 98) && (g == 0 || g == 2 || g == 12 || g == 98);
    }
    assert [12][0] == 12;
    forall h | h in tags && tags[h] > 0 ensures InList([12], h) {
    }
    assert [12][..0] == [];
    assert Fitting([12], tags, 4) == Fitting([12][..0], tags, 4) + [12];
  }

  /** The copied bytes of block `h` of `mem` are in the payload of `q` of `mem'`. */
  ghost predicate Arrived(mem: seq<int>, mem': seq<int>, tags: Tags, h: int, q: int, newSize: int) {
    && h in tags && q in tags && 0 <= h && 0 <= q && 0 < newSize
    && h + Abs(tags[h]) < |mem| && q + Abs(tags[q]) <= |mem'|
    && CopyLength(Abs(tags[h]), newSize) <= 4 * (Abs(tags[q]) - 2)
    && SameBytes(mem, h + 1, mem', q + 1, CopyLength(Abs(tags[h]), newSize))
  }

  /** Byte `b` at `q`, behind the `w - 2` words of the old payload, is that of the old block's footer or of the
      header of the block on its right. */
  ghost predicate SpillAt(mem': seq<int>, q: int, w: int, footer: int, header: int, b: int)
    requires 0 <= b
  {
    && 0 <= q && q + 1 + b / 4 < |mem'|
    && ByteAt(mem', q + 1, b) == Byte(if b < 4 * (w - 1) then footer else header, b % 4)
  }

  /** What arrives behind the old payload: the old block's footer, then the header of the block on its right. */
  ghost predicate Spilled(mem': seq<int>, q: int, w: int, newSize: int, footer: int, header: int)
    requires 2 <= w
  {
    forall b {:trigger SpillAt(mem', q, w, footer, header, b)} :: 4 * (w - 2) <= b < CopyLength(w, newSize) ==>
      SpillAt(mem', q, w, footer, header, b)
  }

  lemma CopyArrives(m0: seq<int>, m1: seq<int>, dst: int, src: int, m: int)
    requires 0 <= dst && 0 <= src && 0 <= m && dst + (m + 3) / 4 <= |m0| && src + (m + 3) / 4 <= |m0|
    requires Copied(m0, m1, dst, src, m)
    ensures OnlySpan(m0, m1, dst, m) && SameBytes(m0, src, m1, dst, m)
  {
    forall b | 0 <= b < m ensures ByteAt(m1, dst, b) == ByteAt(m0, src, b) { CopiedByte(m0, m1, dst, src, m, b); }
  }

  /** Freeing the old block leaves the copied bytes where they arrived. */
  lemma StillThere(m0: seq<int>, m1: seq<int>, m2: seq<int>, tags: Tags, h: int, q: int, newSize: int)
    requires Arrived(m0, m1, tags, h, q, newSize) && q != h && tags[q] < 0 && LiveKept(m1, m2, tags, {h})
    ensures Arrived(m0, m2, tags, h, q, newSize)
  {
    assert WordsKept(m1, m2, q, Abs(tags[q]));
    var m, dst, src := CopyLength(Abs(tags[h]), newSize), q + 1, h + 1;
    forall b | 0 <= b < m ensures ByteAt(m2, dst, b) == ByteAt(m0, src, b) {
      assert ByteAt(m1, dst, b) == ByteAt(m0, src, b);
    }
  }

  lemma TagsArrive(s: State, mem': seq<int>, h: int, q: int, newSize: int)
    requires GoodState(s) && Live(s.tags, |s.mem|, h) && Arrived(s.mem, mem', s.tags, h, q, newSize)
    ensures RightOf(s.tags, h) in s.tags && 4 <= Abs(s.tags[h])
    ensures Spilled(mem', q, Abs(s.tags[h]), newSize, s.tags[h], s.tags[RightOf(s.tags, h)])
  {
    var w := Abs(s.tags[h]);
    var g := FreeReads(s.mem, s.avail, s.tags, s.order, h);
    assert TagOk(s.mem, s.tags, h) && BlockOk(s.tags, |s.mem|, h);
    forall b | 4 * (w - 2) <= b < CopyLength(w, newSize)
      ensures SpillAt(mem', q, w, s.tags[h], s.tags[RightOf(s.tags, h)], b)
    {
      assert ByteAt(mem', q + 1, b) == ByteAt(s.mem, h + 1, b);
    }
  }

  /** The outcome of a successful realloc of live block `h` to block `q`: allocate, copy, free. */
  ghost predicate Reallocated(mem: seq<int>, tags: Tags, mem': seq<int>, tags': Tags, h: int, q: int, newSize: int)
    requires 0 < newSize < WORD_MAX
  {
    && h in tags && q in tags && 0 <= h && 0 <= q && 2 <= Abs(tags[h])
    && var granted := AllocTags(tags, q, IntsFor(newSize));
    && Allocated(tags, granted, q, newSize) && Released(granted, tags', h)
    && h + Abs(tags[h]) <= |mem| && q + Abs(tags[q]) <= |mem'|
    && KeptBytes(Abs(tags[h]), newSize) <= 4 * (Abs(granted[q]) - 2)
    && SameBytes(mem, h + 1, mem', q + 1, KeptBytes(Abs(tags[h]), newSize))
    && RightOf(tags, h) in granted
    && Spilled(mem', q, Abs(tags[h]), newSize, tags[h], granted[RightOf(tags, h)])
  }

  /** Source and destination of the copy lie inside the array and apart, the destination inside the payload. */
  lemma MoveFits(mem: seq<int>, tags: Tags, h: int, q: int, newSize: int)
    requires Tiling(tags, |mem|) && Tagged(mem, tags, {}) && Live(tags, |mem|, h) && Live(tags, |mem|, q) && h != q
    requires 0 < newSize && CopyLength(Abs(tags[h]), newSize) <= 4 * (Abs(tags[q]) - 2)
    ensures 0 <= h && 0 <= q && h + Abs(tags[h]) <= |mem| - 2 && q + Abs(tags[q]) <= |mem| - 2
    ensures 4 <= Abs(tags[h]) && mem[h] == tags[h]
    ensures var n := (CopyLength(Abs(tags[h]), newSize) + 3) / 4;
            && 0 < n && q + 1 + n <= q + Abs(tags[q]) - 1 && h + 1 + n <= |mem| - 1
            && (q + 1 + n <= h + 1 || h + 1 + n <= q + 1)
  {
    assert TagOk(mem, tags, h) && Apart(tags, h, q) && BlockOk(tags, |mem|, h) && BlockOk(tags, |mem|, q);
    assert Apart(tags, h, |mem| - 2) && Apart(tags, q, |mem| - 2);
  }

  /** The copy disturbs nothing but the payload of `q`, and its bytes arrive there. */
  lemma CopyLands(s: State, m1: seq<int>, h: int, q: int, newSize: int)
    requires GoodState(s) && Live(s.tags, |s.mem|, h) && Live(s.tags, |s.mem|, q) && h != q && 0 < newSize
    requires 0 <= h && 0 <= q && h + Abs(s.tags[h]) <= |s.mem| - 2 && q + Abs(s.tags[q]) <= |s.mem| - 2
    requires var n := (CopyLength(Abs(s.tags[h]), newSize) + 3) / 4;
             0 < n && q + 1 + n <= q + Abs(s.tags[q]) - 1 && h + 1 + n <= |s.mem| - 1
    requires CopyLength(Abs(s.tags[h]), newSize) <= 4 * (Abs(s.tags[q]) - 2)
    requires |m1| == |s.mem| && OnlySpan(s.mem, m1, q + 1, CopyLength(Abs(s.tags[h]), newSize))
    requires SameBytes(s.mem, h + 1, m1, q + 1, CopyLength(Abs(s.tags[h]), newSize))
    ensures Good(m1, s.avail, s.tags, s.order) && LiveKept(s.mem, m1, s.tags, {q})
    ensures Arrived(s.mem, m1, s.tags, h, q, newSize)
  {
    PayloadWritesKeep(s.mem, m1, s.avail, s.tags, s.order, q);
  }

  lemma MovedKeepsLive(m0: seq<int>, m1: seq<int>, m2: seq<int>, tags: Tags, h: int, q: int)
    requires LiveKept(m0, m1, tags, {q}) && LiveKept(m1, m2, tags, {h})
    ensures LiveKept(m0, m2, tags, {h, q})
  {
    forall x | x in tags && x !in {h, q} && tags[x] < 0 ensures WordsKept(m0, m2, x, Abs(tags[x])) {
      assert WordsKept(m0, m1, x, Abs(tags[x])) && WordsKept(m1, m2, x, Abs(tags[x]));
    }
  }

  lemma ReallocMoves(s: State, m1: seq<int>, t1: Tags, h: int, q: int, newSize: int)
    requires GoodState(s) && |s.mem| == |m1| < 0x4000_0000 && Live(s.tags, |m1|, h) && 0 < newSize < WORD_MAX
    requires Fitting(s.order, s.tags, IntsFor(newSize)) != [] && q == Fitting(s.order, s.tags, IntsFor(newSize))[0]
    requires ReallocSafe(s.tags, s.order, h, newSize) && Allocated(s.tags, t1, q, newSize)
    ensures Live(t1, |m1|, h) && t1[h] == s.tags[h] && Live(t1, |m1|, q) && q != h
    ensures CopyLength(Abs(t1[h]), newSize) <= 4 * (Abs(t1[q]) - 2)
  {
    ReallocSafeWhen(s, h, newSize);
    GrantHoldsRequest(s.tags, t1, |m1|, q, newSize);
    CarveKeepsLive(s.tags, |m1|, q, IntsFor(newSize));
    assert h in t1;
  }

  lemma ReallocKeeps(m0: seq<int>, m1: seq<int>, m2: seq<int>, t0: Tags, t1: Tags, t2: Tags,
                     h: int, q: int, newSize: int)
    requires |m0| == |m1| == |m2| && Tiling(t0, |m0|) && Live(t0, |m0|, h) && 0 < newSize < WORD_MAX
    requires Allocated(t0, t1, q, newSize) && Released(t1, t2, h) && q != h && h in t1 && t1[h] == t0[h]
    requires LiveKept(m0, m1, t0, {}) && LiveKept(m1, m2, t1, {h, q})
    requires Arrived(m1, m2, t1, h, q, newSize) && RightOf(t1, h) in t1 && 2 <= Abs(t1[h])
    requires Spilled(m2, q, Abs(t1[h]), newSize, t1[h], t1[RightOf(t1, h)])
    ensures Reallocated(m0, t0, m2, t2, h, q, newSize)
    ensures LiveKept(m0, m2, t0, {h})
  {
    ReallocKeepsLive(m0, m1, m2, t0, t1, h, q, newSize);
    assert BlockOk(t0, |m0|, q) && BlockOk(t0, |m0|, h);
    assert WordsKept(m0, m1, h, Abs(t0[h]));
    SpillsWhen(Abs(t0[h]), newSize);
    SameBytesFrom(m0, m1, m2, h + 1, q + 1, KeptBytes(Abs(t0[h]), newSize));
  }

  lemma ReallocKeepsLive(m0: seq<int>, m1: seq<int>, m2: seq<int>, t0: Tags, t1: Tags, h: int, q: int, newSize: int)
    requires Tiling(t0, |m0|) && 0 < newSize < WORD_MAX && Allocated(t0, t1, q, newSize)
    requires LiveKept(m0, m1, t0, {}) && LiveKept(m1, m2, t1, {h, q})
    ensures LiveKept(m0, m2, t0, {h})
  {
    CarveKeepsLive(t0, |m0|, q, IntsFor(newSize));
    forall x | x in t0 && x !in {h} && t0[x] < 0 ensures WordsKept(m0, m2, x, Abs(t0[x])) {
      assert x in t1;
      assert WordsKept(m0, m1, x, Abs(t0[x])) && WordsKept(m1, m2, x, Abs(t1[x]));
    }
  }

  lemma SameBytesFrom(m0: seq<int>, m1: seq<int>, m2: seq<int>, src: int, dst: int, n: int)
    requires |m0| == |m1| && 0 <= src && 0 <= dst && src + (n + 3) / 4 <= |m1| && dst + (n + 3) / 4 <= |m2|
    requires forall i :: src <= i < src + (n + 3) / 4 ==> m1[i] == m0[i]
    requires SameBytes(m1, src, m2, dst, n)
    ensures SameBytes(m0, src, m2, dst, n)
  {
    forall b | 0 <= b < n ensures ByteAt(m2, dst, b) == ByteAt(m0, src, b) {
      assert ByteAt(m2, dst, b) == ByteAt(m1, src, b);
    }
  }

  /** What the first-fit loop sees at the k-th list position when nothing before it fits. */
  lemma FirstStep(mem: seq<int>, avail: int, tags: Tags, order: seq<int>, k: int, ints: int)
    requires Good(mem, avail, tags, order) && 0 <= k <= |order| && At(order, k) != 0 && 4 <= ints
    requires Fitting(order[..k], tags, ints) == []
    ensures k < |order| && 0 < order[k] && order[k] + 2 < |mem| && order[k] in tags
    ensures mem[order[k]] == tags[order[k]] && 4 <= tags[order[k]] && mem[order[k] + 1] == At(order, k + 1)
    ensures tags[order[k]] < ints ==> Fitting(order[..k + 1], tags, ints) == []
    ensures ints <= tags[order[k]] ==>
              Fitting(order, tags, ints) != [] && Fitting(order, tags, ints)[0] == order[k] && !NoneFits(tags, ints)
  {
    SearchStep(mem, avail, tags, order, k, ints);
    SeenIsFirst(order, tags, ints, k);
  }

  lemma FirstEnds(mem: seq<int>, avail: int, tags: Tags, order: seq<int>, k: int, ints: int)
    requires Good(mem, avail, tags, order) && 0 <= k <= |order| && At(order, k) == 0 && 4 <= ints
    requires Fitting(order[..k], tags, ints) == []
    ensures NoneFits(tags, ints)
  {
    ListEnds(mem, avail, order, k);
    SeenIsFirst(order, tags, ints, k);
    BothFailTogether(mem, avail, tags, order, ints);
  }

  lemma ListEnds(mem: seq<int>, avail: int, order: seq<int>, k: int)
    requires Links(mem, avail, order) && 0 <= k <= |order|
    ensures At(order, k) == 0 <==> k == |order|
  {
    assert k == |order| || LinkOk(mem, order, k);
  }

  /** What the search loop sees at the k-th list position. */
  lemma SearchStep(mem: seq<int>, avail: int, tags: Tags, order: seq<int>, k: int, ints: int)
    requires Good(mem, avail, tags, order) && 0 <= k <= |order| && At(order, k) != 0 && 4 <= ints
    ensures k < |order| && 0 < order[k] && order[k] + 2 < |mem| && order[k] in tags
    ensures mem[order[k]] == tags[order[k]] && 4 <= tags[order[k]] < |mem|
    ensures mem[order[k] + 1] == At(order, k + 1)
    ensures Fitting(order[..k + 1], tags, ints) ==
            if tags[order[k]] >= ints then Fitting(order[..k], tags, ints) + [order[k]]
            else Fitting(order[..k], tags, ints)
  {
    assert FreeAt(tags, order, {}, k);
    assert LinkOk(mem, order, k) && TagOk(mem, tags, order[k]) && BlockOk(tags, |mem|, order[k]);
    assert order[..k + 1][..k] == order[..k];
  }
}

/** The frame allocator and the address spaces built from it, updated in place. */
module Paging {
  import opened FrameSpec
  import opened FrameSteps

  predicate Taken(o: Owner) { o != Untouched && o != Free }

  /** Every frame in use before keeps its owner and all its words. */
  ghost predicate Kept(c: Config, mem: Memory, owner: Ledger, mem': Memory, owner': Ledger)
    requires Shaped(c, mem, owner) && Shaped(c, mem', owner')
  {
    forall f {:trigger owner[f]} {:trigger mem'[f]} {:trigger owner'[f]} ::
      In(c, f) && Taken(owner[f]) ==> owner'[f] == owner[f] && mem'[f] == mem[f]
  }

  /** Every frame taken since then belongs to the space of `d`. */
  ghost predicate NoLeak(owner: Ledger, owner': Ledger, d: int) {
    forall g {:trigger owner'[g]} :: g in owner && g in owner' && !Taken(owner[g]) && Taken(owner'[g]) ==>
      InSpace(owner'[g], g, d)
  }

  /** Page (i, j) of space `d` is backed by `f`; at most a table for it was allocated besides, and a frame that
      backed it before is now nobody's but the caller's. */
  ghost predicate PageAdded(c: Config, mem: Memory, owner: Ledger, mem': Memory, owner': Ledger, d: int, i: int,
                            j: int, f: int)
    requires Shaped(c, mem, owner) && Shaped(c, mem', owner')
  {
    && In(c, f) && owner'[f] == Page(d, i, j) && mem'[f] == mem[f]
    && (forall g {:trigger owner'[g]} :: In(c, g) && g != f ==>
          if g == Lookup(mem, d, i, j) then owner'[g] == Held
          else owner'[g] == owner[g] || (!Taken(owner[g]) && owner'[g] == Table(d, i)))
    && (forall g {:trigger mem'[g]} :: In(c, g) && Taken(owner[g]) && g != d && owner[g] != Table(d, i) ==>
        mem'[g] == mem[g])
  }

  /** Space `d` is as make_pd leaves it: the APIC pages and nothing else. */
  ghost predicate FreshShape(c: Config, mem: Memory, owner: Ledger, d: int)
    requires Shaped(c, mem, owner)
  {
    && In(c, d) && owner[d] == Dir
    && (forall i {:trigger mem[d][i]} :: PRIVATE <= i < WORDS ==> (mem[d][i] != 0 <==> HasSpecial(c, i)))
    && (forall t {:trigger owner[t]} :: In(c, t) && owner[t].Table? && owner[t].d == d ==>
          NewTableWords(c, mem[t], owner[t].i))
  }

  class Machine {
    const c: Config
    var mem: Memory
    var firstFree: int   // address of the first free frame, 0 if none
    var avail: int       // first untouched frame
    ghost var owner: Ledger
    ghost var free: seq<int>

    ghost predicate Valid()
      reads this
    {
      Inv(c, mem, owner, free, firstFree, avail)
    }

    /** PhysMem::init: the whole range untouched. */
    constructor (config: Config, words: Memory)
      requires ConfigOk(config)
      requires forall f :: f in words <==> In(config, f)
      requires forall f :: f in words ==> |words[f]| == WORDS
      ensures Valid() && c == config && mem == words && forall f :: f in owner ==> owner[f] == Untouched
    {
      c, mem, firstFree, avail := config, words, 0, config.start;
      owner, free := map f | f in words :: Untouched, [];
    }

    method AllocFrame() returns (ok: bool, f: int)
      requires Valid()
      modifies this
      ensures Valid()
      ensures !ok <==> old(free) == [] && old(avail) == c.limit
      ensures !ok ==> mem == old(mem) && owner == old(owner) && free == [] && avail == c.limit
      ensures ok ==> In(c, f) && !Taken(old(owner)[f])
      ensures ok ==> owner == old(owner)[f := Held] && mem == old(mem)[f := Zeros()]
      ensures ok && old(free) != [] ==> f == old(free)[0] && free == old(free)[1..] && avail == old(avail)
      ensures ok && old(free) == [] ==> f == old(avail) && free == [] && avail == old(avail) + 1
    {
      ok := true;
      if firstFree != 0 {
        PoolPop(c, mem, owner, free, firstFree, avail);
        f := firstFree / 4096;
        firstFree := mem[f][0];
        free := free[1..];
      } else {
        f := avail;
        FreeEmpty(c, mem, owner, free, firstFree, avail);
        if avail == c.limit { return false, f; }
        PoolBump(c, mem, owner, free, firstFree, avail);
        avail := avail + 1;
      }
      mem := mem[f := Zeros()];
      owner := owner[f := Held];
    }

    /** alloc_frame, for callers to whom it does not matter which frame they get. */
    method SomeFrame() returns (ok: bool, f: int)
      requires Valid()
      modifies this
      ensures Valid()
      ensures !ok ==> mem == old(mem) && owner == old(owner) && free == [] && avail == c.limit
      ensures ok ==> In(c, f) && !Taken(old(owner)[f])
      ensures ok ==> owner == old(owner)[f := Held] && mem == old(mem)[f := Zeros()]
    {
      ok, f := AllocFrame();
    }

    method DeallocFrame(f: int)
      requires Valid() && In(c, f) && owner[f] == Held
      modifies this
      ensures Valid() && owner == old(owner)[f := Free] && free == [f] + old(free)
      ensures mem.Keys == old(mem).Keys && forall g {:trigger mem[g]} :: In(c, g) && g != f ==> mem[g] == old(mem)[g]
    {
      PoolPush(c, mem, owner, free, firstFree, avail, f);
      mem := Put(mem, f, 0, firstFree);
      firstFree := 4096 * f;
      owner, free := owner[f := Free], [f] + free;
    }

    /** The page table for directory index `i`, allocated and linked if missing. */
    method TableFor(d: int, i: int) returns (ok: bool, t: int)
      requires Valid() && In(c, d) && owner[d] == Dir && PRIVATE <= i < WORDS
      modifies this
      ensures Valid()
      ensures !ok ==> mem == old(mem) && owner == old(owner) && free == [] && avail == c.limit
      ensures ok ==> In(c, t) && owner[t] == Table(d, i)
      ensures ok && old(mem)[d][i] != 0 ==> mem == old(mem) && owner == old(owner)
      ensures ok && old(mem)[d][i] == 0 ==>
                && !Taken(old(owner)[t]) && owner == old(owner)[t := Table(d, i)]
                && mem == old(mem)[t := Zeros()][d := old(mem)[d][i := Entry(t, 7)]]
    {
      assert DirEntryOk(c, mem, owner, d, i);
      var pde := mem[d][i];
      if !Present(pde) {
        ok, t := SomeFrame();
        if !ok { return; }
        EntryBits(t, 7);
        LinkTable(c, mem, owner, d, i, t);
        PoolKept(c, mem, owner, Put(mem, d, i, Entry(t, 7)), owner[t := Table(d, i)], free, firstFree, avail);
        pde := Entry(t, 7);
        mem := Put(mem, d, i, pde);
        owner := owner[t := Table(d, i)];
      }
      ok, t := true, Target(pde);
    }

    /** user_map of a frame the caller holds at a page that is not special, mapped before or not. */
    method UserMap(d: int, i: int, j: int, f: int) returns (ok: bool)
      requires Valid() && In(c, d) && owner[d] == Dir && PRIVATE <= i < WORDS && 0 <= j < WORDS
      requires !Special(c, i, j) && In(c, f) && owner[f] == Held
      modifies this
      ensures Valid()
      ensures !ok ==> mem == old(mem) && owner == old(owner) && free == [] && avail == c.limit
      ensures ok ==> PageAdded(c, old(mem), old(owner), mem, owner, d, i, j, f)
    {
      assert DirEntryOk(c, mem, owner, d, i);
      assert mem[d][i] != 0 ==> TableEntryOk(c, mem, owner, Target(mem[d][i]), j);
      var t;
      ok, t := TableFor(d, i);
      if !ok { return; }
      assert DirEntryOk(c, mem, owner, d, i) && FrameOk(c, mem, owner, t);
      RemapPage(c, mem, owner, d, i, j, t, f);
      ghost var owner' := Remapped(owner, mem[t][j], f, Page(d, i, j));
      PoolKept(c, mem, owner, Put(mem, t, j, Entry(f, 7)), owner', free, firstFree, avail);
      mem := Put(mem, t, j, Entry(f, 7));
      owner := owner';
    }

    /** The anonymous or private page fault: a zeroed frame mapped at the page. */
    method FaultIn(d: int, i: int, j: int) returns (ok: bool)
      requires Valid() && In(c, d) && owner[d] == Dir && PRIVATE <= i < WORDS && 0 <= j < WORDS
      requires !Special(c, i, j) && Lookup(mem, d, i, j) == -1
      modifies this
      ensures Valid()
      ensures !ok ==> free == [] && avail == c.limit
      ensures ok ==> In(c, Lookup(mem, d, i, j)) && mem[Lookup(mem, d, i, j)] == Zeros()
      ensures ok ==> !Taken(old(owner)[Lookup(mem, d, i, j)])
      ensures ok ==> forall g {:trigger owner[g]} :: In(c, g) && Taken(old(owner)[g]) ==> owner[g] == old(owner)[g]
      ensures ok ==> forall g {:trigger mem[g]} ::
                In(c, g) && Taken(old(owner)[g]) && g != d && old(owner)[g] != Table(d, i) ==> mem[g] == old(mem)[g]
    {
      var f;
      ok, f := SomeFrame();
      if !ok { return; }
      assert DirEntryOk(c, mem, owner, d, i);
      ok := UserMap(d, i, j, f);
      if ok { TranslationIsLedger(c, mem, owner, d, i, j, f); }
    }

    /** unmap of a private page; with `physical` the frame goes back to the pool. */
    method Unmap(d: int, i: int, j: int, physical: bool)
      requires Valid() && In(c, d) && owner[d] == Dir && PRIVATE <= i < WORDS && 0 <= j < WORDS && !Special(c, i, j)
      modifies this
      ensures Valid() && Lookup(mem, d, i, j) == -1
      ensures old(Lookup(mem, d, i, j)) == -1 ==> mem == old(mem) && owner == old(owner)
      ensures old(Lookup(mem, d, i, j)) != -1 ==>
                && In(c, old(Lookup(mem, d, i, j)))
                && owner == old(owner)[old(Lookup(mem, d, i, j)) := if physical then Free else Held]
                && (physical ==> free == [old(Lookup(mem, d, i, j))] + old(free))
      ensures forall g {:trigger mem[g]} ::
                In(c, g) && old(owner)[g] != Table(d, i) && g != old(Lookup(mem, d, i, j)) ==> mem[g] == old(mem)[g]
    {
      assert DirEntryOk(c, mem, owner, d, i);
      var pde := mem[d][i];
      if !Present(pde) { return; }
      var t := Target(pde);
      assert TableEntryOk(c, mem, owner, t, j);
      var pte := mem[t][j];
      if !Present(pte) { return; }
      var pa := Target(pte);
      if physical {
        ReleasePage(d, i, j, t, pa);
      } else {
        UnmapPage(c, mem, owner, d, i, j, t, pa);
        PoolKept(c, mem, owner, Put(mem, t, j, 0), owner[pa := Held], free, firstFree, avail);
        mem := Put(mem, t, j, 0);
        owner := owner[pa := Held];
      }
    }

    /** map of an APIC page into a directory still under construction. */
    method MapApic(d: int, i: int, j: int) returns (ok: bool, t: int)
      requires Valid() && In(c, d) && owner[d] == Held && PRIVATE <= i < WORDS && 0 <= j < WORDS
      requires mem[d][i] == 0 ||
               (Present(mem[d][i]) && In(c, Target(mem[d][i])) && owner[Target(mem[d][i])] == Held &&
                Target(mem[d][i]) != d)
      modifies this
      ensures Valid()
      ensures !ok ==> free == [] && avail == c.limit
      ensures ok && old(mem)[d][i] == 0 ==>
                && In(c, t) && !Taken(old(owner)[t]) && owner == old(owner)[t := Held]
                && mem == old(mem)[t := Zeros()[j := Entry(PageNo(i, j), 3)]][d := old(mem)[d][i := Entry(t, 7)]]
      ensures ok && old(mem)[d][i] != 0 ==>
                && t == Target(old(mem)[d][i]) && owner == old(owner)
                && mem == Put(old(mem), t, j, Entry(PageNo(i, j), 3))
    {
      var pde := mem[d][i];
      if !Present(pde) {
        ok, t := SomeFrame();
        if !ok { return; }
        EntryBits(t, 7);
        pde := Entry(t, 7);
        HeldWrite(c, mem, owner, free, firstFree, avail, d, i, pde);
        mem := Put(mem, d, i, pde);
      }
      ok, t := true, Target(pde);
      HeldWrite(c, mem, owner, free, firstFree, avail, t, j, Entry(PageNo(i, j), 3));
      mem := Put(mem, t, j, Entry(PageNo(i, j), 3));
    }

    /** The words of a new directory and its APIC tables, still in the caller's hands. */
    method BuildDir() returns (ok: bool, d: int, t1: int, t2: int)
      requires Valid()
      modifies this
      ensures Valid()
      ensures !ok ==> free == [] && avail == c.limit
      ensures ok ==> In(c, d) && In(c, t1) && In(c, t2) && d != t1 && d != t2
      ensures ok ==> !Taken(old(owner)[d]) && !Taken(old(owner)[t1]) && !Taken(old(owner)[t2])
      ensures ok ==> owner == old(owner)[d := Held][t1 := Held][t2 := Held]
      ensures ok ==> forall g {:trigger mem[g]} :: In(c, g) && g != d && g != t1 && g != t2 ==> mem[g] == old(mem)[g]
      ensures ok ==> BuiltWords(c, mem, d, t1, t2)
    {
      t1, t2 := 0, 0;
      ok, d := SomeFrame();
      if !ok { return; }
      ghost var w := c.low + Zeros()[|c.low|..];
      HeldFill(c, mem, owner, free, firstFree, avail, d, w);
      mem := mem[d := c.low + Zeros()[|c.low|..]];
      assert w[c.io / 1024] == 0 && w[c.local / 1024] == 0;
      ok, t1 := MapApic(d, c.io / 1024, c.io % 1024);
      if !ok { return; }
      EntryBits(t1, 7);
      assert mem[d] == w[c.io / 1024 := Entry(t1, 7)];
      ok, t2 := MapApic(d, c.local / 1024, c.local % 1024);
    }

    /** make_pd: a directory with the shared half and the two APIC pages. */
    method MakePd() returns (ok: bool, d: int)
      requires Valid()
      modifies this
      ensures Valid()
      ensures !ok ==> free == [] && avail == c.limit
      ensures ok ==> In(c, d) && !Taken(old(owner)[d]) && FreshShape(c, mem, owner, d)
      ensures ok ==> Kept(c, old(mem), old(owner), mem, owner) && NoLeak(old(owner), owner, d)
    {
      ghost var t1, t2;
      ok, d, t1, t2 := BuildDir();
      if !ok { return; }
      NewSpaceKeeps(c, mem, owner, free, firstFree, avail, d, t1, t2);
      owner := NewSpace(c, owner, d, t1, t2);
    }

    /** delete_private: back to the shape make_pd left, every private frame returned. */
    method DeletePrivate(d: int)
      requires Valid() && In(c, d) && owner[d] == Dir
      modifies this
      ensures Valid() && FreshShape(c, mem, owner, d)
      ensures owner == Swept(c, old(owner), d, WORDS, 0)
      ensures forall g {:trigger mem[g]} :: In(c, g) && !InSpace(old(owner)[g], g, d) ==> mem[g] == old(mem)[g]
    {
      ghost var mem0, owner0 := mem, owner;
      var i := PRIVATE;
      SweptNone(c, mem, owner, d);
      while i < WORDS
        invariant PRIVATE <= i <= WORDS && Valid() && owner == Swept(c, owner0, d, i, 0)
        invariant forall g {:trigger mem[g]} :: In(c, g) && !InSpace(owner0[g], g, d) ==> mem[g] == mem0[g]
      {
        var pde := mem[d][i];
        assert DirEntryOk(c, mem, owner, d, i);
        if Present(pde) {
          SweepTable(d, i, owner0, mem0);
        } else {
          SweptNoTable(c, mem, owner, owner0, d, i);
        }
        i := i + 1;
      }
      SweptFresh(c, mem, owner, owner0, d);
    }

    /** Clears one table entry and frees the frame behind it. */
    method ReleasePage(d: int, i: int, j: int, t: int, frame: int)
      requires Valid() && In(c, t) && owner[t] == Table(d, i) && 0 <= j < WORDS && !Special(c, i, j)
      requires Present(mem[t][j]) && Target(mem[t][j]) == frame
      modifies this
      ensures Valid() && In(c, frame) && old(owner)[frame] == Page(d, i, j) && owner == old(owner)[frame := Free]
      ensures free == [frame] + old(free) && mem[t] == old(mem)[t][j := 0]
      ensures forall g {:trigger mem[g]} :: In(c, g) && g != t && g != frame ==> mem[g] == old(mem)[g]
    {
      UnmapPage(c, mem, owner, d, i, j, t, frame);
      PoolKept(c, mem, owner, Put(mem, t, j, 0), owner[frame := Held], free, firstFree, avail);
      mem := Put(mem, t, j, 0);
      owner := owner[frame := Held];
      DeallocFrame(frame);
    }

    /** Clears one directory entry and frees the empty table behind it. */
    method ReleaseTable(d: int, i: int, t: int)
      requires Valid() && In(c, t) && owner[t] == Table(d, i) && !HasSpecial(c, i)
      requires forall j :: 0 <= j < WORDS ==> mem[t][j] == 0
      modifies this
      ensures Valid() && owner == old(owner)[t := Free]
      ensures forall g {:trigger mem[g]} :: In(c, g) && g != t && g != d ==> mem[g] == old(mem)[g]
    {
      assert FrameOk(c, mem, owner, t);
      UnlinkTable(c, mem, owner, d, i, t);
      PoolKept(c, mem, owner, Put(mem, d, i, 0), owner[t := Held], free, firstFree, avail);
      mem := Put(mem, d, i, 0);
      owner := owner[t := Held];
      DeallocFrame(t);
    }

    /** One round of delete_private's inner loop: the page at (i, j), if it is not special and present. */
    method SweepPage(d: int, i: int, j: int, t: int, ghost owner0: Ledger, ghost mem0: Memory)
      requires Valid() && In(c, d) && owner[d] == Dir && PRIVATE <= i < WORDS && 0 <= j < WORDS
      requires Present(mem[d][i]) && t == Target(mem[d][i]) && In(c, t) && owner[t] == Table(d, i)
      requires Shaped(c, mem0, owner0) && owner == Swept(c, owner0, d, i, j)
      requires forall g {:trigger mem[g]} :: In(c, g) && !InSpace(owner0[g], g, d) ==> mem[g] == mem0[g]
      modifies this
      ensures Valid() && owner == Swept(c, owner0, d, i, j + 1)
      ensures owner[d] == Dir && mem[d] == old(mem)[d] && owner[t] == Table(d, i)
      ensures forall g {:trigger mem[g]} :: In(c, g) && !InSpace(owner0[g], g, d) ==> mem[g] == mem0[g]
    {
      SweptPage(c, mem, owner, owner0, d, i, j);
      if !Special(c, i, j) {
        var pte := mem[t][j];
        if Present(pte) {
          var frame := Target(pte);
          ReleasePage(d, i, j, t, frame);
        }
      }
    }

    /** One round of delete_private's outer loop: the table at directory index `i`. */
    method SweepTable(d: int, i: int, ghost owner0: Ledger, ghost mem0: Memory)
      requires Valid() && In(c, d) && owner[d] == Dir && PRIVATE <= i < WORDS && mem[d][i] != 0
      requires Shaped(c, mem0, owner0) && owner == Swept(c, owner0, d, i, 0)
      requires forall g {:trigger mem[g]} :: In(c, g) && !InSpace(owner0[g], g, d) ==> mem[g] == mem0[g]
      modifies this
      ensures Valid() && owner == Swept(c, owner0, d, i + 1, 0)
      ensures forall g {:trigger mem[g]} :: In(c, g) && !InSpace(owner0[g], g, d) ==> mem[g] == mem0[g]
    {
      assert DirEntryOk(c, mem, owner, d, i);
      var pde := mem[d][i];
      var t := Target(pde);
      var containsSpecial := false;
      var j := 0;
      while j < WORDS
        invariant 0 <= j <= WORDS && Valid() && owner == Swept(c, owner0, d, i, j)
        invariant owner[d] == Dir && mem[d][i] == pde && In(c, t) && owner[t] == Table(d, i)
        invariant forall g {:trigger mem[g]} :: In(c, g) && !InSpace(owner0[g], g, d) ==> mem[g] == mem0[g]
        invariant containsSpecial ==> HasSpecial(c, i)
        invariant !containsSpecial ==> forall k :: 0 <= k < j ==> !Special(c, i, k)
      {
        if Special(c, i, j) {
          SpecialIndex(c, i, j);
          containsSpecial := true;
        }
        SweepPage(d, i, j, t, owner0, mem0);
        j := j + 1;
      }
      SweptTable(c, mem, owner, owner0, d, i);
      if !containsSpecial {
        NoSpecial(c, i);
        SweptEmpty(c, mem, owner, owner0, d, i, t);
        ReleaseTable(d, i, t);
      }
    }

    /** delete_pd: every frame of the space is returned, each once, and no other frame is touched. */
    method DeletePd(d: int)
      requires Valid() && In(c, d) && owner[d] == Dir
      modifies this
      ensures Valid() && owner == Returned(old(owner), d)
      ensures forall g {:trigger mem[g]} :: In(c, g) && !InSpace(old(owner)[g], g, d) ==> mem[g] == old(mem)[g]
    {
      ghost var mem0, owner0 := mem, owner;
      DropKeeps(c, mem, owner, free, firstFree, avail, d);
      owner := Dropped(owner, d);
      DeletedNone(c, mem0, owner0, d);
      var i := PRIVATE;
      while i < WORDS
        invariant PRIVATE <= i <= WORDS && Valid() && owner == Deleted(owner0, d, i, 0)
        invariant MemLeft(c, mem0, owner0, mem, d, i, 0)
      {
        assert DirEntryOk(c, mem0, owner0, d, i);
        if Present(mem[d][i]) {
          DeleteTable(d, i, mem0, owner0);
        } else {
          DeletedNoTable(c, mem0, owner0, d, i);
        }
        i := i + 1;
      }
      ReturnDir(d, mem0, owner0);
    }

    /** The end of delete_pd: the directory itself. */
    method ReturnDir(d: int, ghost mem0: Memory, ghost owner0: Ledger)
      requires Valid() && Sound(c, mem0, owner0) && In(c, d) && owner0[d] == Dir
      requires owner == Deleted(owner0, d, WORDS, 0) && MemLeft(c, mem0, owner0, mem, d, WORDS, 0)
      modifies this
      ensures Valid() && owner == Returned(owner0, d)
      ensures forall g {:trigger mem[g]} :: In(c, g) && !InSpace(owner0[g], g, d) ==> mem[g] == mem0[g]
    {
      DeletedAll(c, mem0, owner0, d);
      DeallocFrame(d);
    }

    /** One round of delete_pd's inner loop: the frame behind (i, j), if it is present and not special. */
    method DeletePage(d: int, i: int, j: int, t: int, ghost mem0: Memory, ghost owner0: Ledger)
      requires Valid() && Sound(c, mem0, owner0) && In(c, d) && owner0[d] == Dir
      requires PRIVATE <= i < WORDS && 0 <= j < WORDS && Present(mem0[d][i]) && t == Target(mem0[d][i])
      requires owner == Deleted(owner0, d, i, j) && MemLeft(c, mem0, owner0, mem, d, i, j)
      modifies this
      ensures Valid() && owner == Deleted(owner0, d, i, j + 1) && MemLeft(c, mem0, owner0, mem, d, i, j + 1)
    {
      assert DirEntryOk(c, mem0, owner0, d, i);
      assert mem[t] == mem0[t];
      DeletedPage(c, mem0, owner0, d, i, j);
      var pte := mem[t][j];
      if Present(pte) {
        var frame := Target(pte);
        if !Special(c, i, j) {
          DeallocFrame(frame);
        }
      }
    }

    /** delete_pd's inner loop: all the pages below the table `t` of directory index `i`. */
    method DeletePages(d: int, i: int, t: int, ghost mem0: Memory, ghost owner0: Ledger)
      requires Valid() && Sound(c, mem0, owner0) && In(c, d) && owner0[d] == Dir && PRIVATE <= i < WORDS
      requires Present(mem0[d][i]) && t == Target(mem0[d][i])
      requires owner == Deleted(owner0, d, i, 0) && MemLeft(c, mem0, owner0, mem, d, i, 0)
      modifies this
      ensures Valid() && owner == Deleted(owner0, d, i, WORDS) && MemLeft(c, mem0, owner0, mem, d, i, WORDS)
    {
      var j := 0;
      while j < WORDS
        invariant 0 <= j <= WORDS && Valid() && owner == Deleted(owner0, d, i, j)
        invariant MemLeft(c, mem0, owner0, mem, d, i, j)
      {
        DeletePage(d, i, j, t, mem0, owner0);
        j := j + 1;
      }
    }

    /** One round of delete_pd's outer loop: the table at directory index `i` and its pages. */
    method DeleteTable(d: int, i: int, ghost mem0: Memory, ghost owner0: Ledger)
      requires Valid() && Sound(c, mem0, owner0) && In(c, d) && owner0[d] == Dir
      requires PRIVATE <= i < WORDS && mem[d][i] != 0
      requires owner == Deleted(owner0, d, i, 0) && MemLeft(c, mem0, owner0, mem, d, i, 0)
      modifies this
      ensures Valid() && owner == Deleted(owner0, d, i + 1, 0) && MemLeft(c, mem0, owner0, mem, d, i + 1, 0)
    {
      assert mem[d] == mem0[d];
      assert DirEntryOk(c, mem0, owner0, d, i);
      var t := Target(mem[d][i]);
      DeletePages(d, i, t, mem0, owner0);
      ReturnTable(d, i, t, mem0, owner0);
    }

    /** The end of such a round: the table itself. */
    method ReturnTable(ghost d: int, ghost i: int, t: int, ghost mem0: Memory, ghost owner0: Ledger)
      requires Valid() && Sound(c, mem0, owner0) && In(c, d) && owner0[d] == Dir && PRIVATE <= i < WORDS
      requires Present(mem0[d][i]) && t == Target(mem0[d][i])
      requires owner == Deleted(owner0, d, i, WORDS) && MemLeft(c, mem0, owner0, mem, d, i, WORDS)
      modifies this
      ensures Valid() && owner == Deleted(owner0, d, i + 1, 0) && MemLeft(c, mem0, owner0, mem, d, i + 1, 0)
    {
      DeletedTable(c, mem0, owner0, d, i);
      DeallocFrame(t);
    }
  }

  lemma HeldFill(c: Config, mem: Memory, owner: Ledger, free: seq<int>, firstFree: int, avail: int, f: int, w: Words)
    requires Inv(c, mem, owner, free, firstFree, avail) && In(c, f) && owner[f] == Held && |w| == WORDS
    ensures Inv(c, mem[f := w], owner, free, firstFree, avail)
  {
    Recolor(c, mem, owner, f, w, Held);
    assert owner[f := Held] == owner;
    PoolKept(c, mem, owner, mem[f := w], owner, free, firstFree, avail);
  }

  lemma HeldWrite(c: Config, mem: Memory, owner: Ledger, free: seq<int>, firstFree: int, avail: int, f: int, k: int,
                  e: int)
    requires Inv(c, mem, owner, free, firstFree, avail) && In(c, f) && owner[f] == Held && 0 <= k < WORDS
    ensures Inv(c, Put(mem, f, k, e), owner, free, firstFree, avail)
  {
    HeldFill(c, mem, owner, free, firstFree, avail, f, mem[f][k := e]);
  }

  /** What the two map calls of make_pd leave in the directory and its tables. */
  ghost predicate BuiltWords(c: Config, mem: Memory, d: int, t1: int, t2: int)
    requires ConfigOk(c)
  {
    var w := c.low + Zeros()[|c.low|..];
    && d in mem && t1 in mem && t2 in mem
    && var e1, e2 := Entry(PageNo(c.io / 1024, c.io % 1024), 3), Entry(PageNo(c.local / 1024, c.local % 1024), 3);
    && if c.io / 1024 == c.local / 1024
       then t1 == t2 && mem[d] == w[c.io / 1024 := Entry(t1, 7)] &&
            mem[t1] == Zeros()[c.io % 1024 := e1][c.local % 1024 := e2]
       else t1 != t2 && mem[d] == w[c.io / 1024 := Entry(t1, 7)][c.local / 1024 := Entry(t2, 7)] &&
            mem[t1] == Zeros()[c.io % 1024 := e1] && mem[t2] == Zeros()[c.local % 1024 := e2]
  }

  lemma NewDirReady(c: Config, mem: Memory, d: int, t1: int, t2: int)
    requires ConfigOk(c) && d != t1 && d != t2 && BuiltWords(c, mem, d, t1, t2)
    ensures NewDirWords(c, mem[d], t1, t2)
    ensures NewTableWords(c, mem[t1], c.io / 1024) && NewTableWords(c, mem[t2], c.local / 1024)
    ensures t1 == t2 <==> c.io / 1024 == c.local / 1024
  {
    assert PageNo(c.io / 1024, c.io % 1024) == c.io && PageNo(c.local / 1024, c.local % 1024) == c.local;
  }

  /** Nothing in a sound ledger refers to a directory that does not exist yet. */
  lemma NewSpaceOnly(c: Config, mem: Memory, owner: Ledger, d: int, t1: int, t2: int)
    requires Sound(c, mem, owner) && In(c, d) && In(c, t1) && In(c, t2) && owner[d] == Held && d != t1 && d != t2
    ensures var owner' := NewSpace(c, owner, d, t1, t2);
            && (forall f {:trigger owner'[f]} :: In(c, f) ==> !(owner'[f].Page? && owner'[f].d == d))
            && (forall f {:trigger owner'[f]} :: In(c, f) && owner'[f].Table? && owner'[f].d == d ==>
                HasSpecial(c, owner'[f].i))
  {
    var owner' := NewSpace(c, owner, d, t1, t2);
    forall f | In(c, f)
      ensures !(owner'[f].Page? && owner'[f].d == d)
      ensures owner'[f].Table? && owner'[f].d == d ==> HasSpecial(c, owner'[f].i)
    {
      assert FrameOk(c, mem, owner, f);
    }
  }

  /** Giving up a space that holds everything taken since leaves exactly the frames in use before. */
  lemma ReturnedUndoes(c: Config, mem: Memory, owner: Ledger, mem': Memory, owner': Ledger, d: int, f: int)
    requires Sound(c, mem, owner) && Sound(c, mem', owner') && In(c, f)
    requires In(c, d) && !Taken(owner[d]) && Kept(c, mem, owner, mem', owner') && NoLeak(owner, owner', d)
    ensures Taken(owner[f]) ==> Returned(owner', d)[f] == owner[f]
    ensures !Taken(owner[f]) ==> !Taken(Returned(owner', d)[f])
  {
    assert FrameOk(c, mem, owner, f);
    assert owner'[f] == owner'[f];
  }

  /** Entering the built directory in the ledger keeps the invariant and gives the shape make_pd promises. */
  lemma NewSpaceKeeps(c: Config, mem: Memory, owner: Ledger, free: seq<int>, firstFree: int, avail: int, d: int,
                      t1: int, t2: int)
    requires Inv(c, mem, owner, free, firstFree, avail) && In(c, d) && In(c, t1) && In(c, t2) && d != t1 && d != t2
    requires owner[d] == Held && owner[t1] == Held && owner[t2] == Held && BuiltWords(c, mem, d, t1, t2)
    ensures Inv(c, mem, NewSpace(c, owner, d, t1, t2), free, firstFree, avail)
    ensures FreshShape(c, mem, NewSpace(c, owner, d, t1, t2), d)
  {
    NewDirReady(c, mem, d, t1, t2);
    NewDir(c, mem, owner, d, t1, t2);
    PoolKept(c, mem, owner, mem, NewSpace(c, owner, d, t1, t2), free, firstFree, avail);
    NewSpaceOnly(c, mem, owner, d, t1, t2);
    NewSpaceFresh(c, mem, NewSpace(c, owner, d, t1, t2), d);
  }

  lemma NewSpaceFresh(c: Config, mem: Memory, owner: Ledger, d: int)
    requires Sound(c, mem, owner) && In(c, d) && owner[d] == Dir
    requires forall f {:trigger owner[f]} :: In(c, f) ==> !(owner[f].Page? && owner[f].d == d)
    requires forall f {:trigger owner[f]} :: In(c, f) && owner[f].Table? && owner[f].d == d ==>
               HasSpecial(c, owner[f].i)
    ensures FreshShape(c, mem, owner, d)
  {
    forall i | PRIVATE <= i < WORDS ensures mem[d][i] != 0 <==> HasSpecial(c, i) {
      assert DirEntryOk(c, mem, owner, d, i);
    }
    forall t | In(c, t) && owner[t].Table? && owner[t].d == d ensures NewTableWords(c, mem[t], owner[t].i) {
      forall j | 0 <= j < WORDS
        ensures mem[t][j] == if Special(c, owner[t].i, j) then Entry(PageNo(owner[t].i, j), 3) else 0
      {
        assert TableEntryOk(c, mem, owner, t, j);
      }
    }
  }

  // ---------------------------------------------------------------- sweeping

  /** Freed by delete_private once it has passed directory index i and table index j. */
  predicate SweptOwner(c: Config, o: Owner, d: int, i: int, j: int) {
    match o
    case Page(x, a, b) => x == d && (a < i || (a == i && b < j))
    case Table(x, a) => x == d && a < i && !HasSpecial(c, a)
    case _ => false
  }

  function Swept(c: Config, owner: Ledger, d: int, i: int, j: int): Ledger {
    map f | f in owner :: if SweptOwner(c, owner[f], d, i, j) then Free else owner[f]
  }

  lemma SweptNone(c: Config, mem: Memory, owner: Ledger, d: int)
    requires Sound(c, mem, owner)
    ensures owner == Swept(c, owner, d, PRIVATE, 0)
  {
    forall f | f in owner ensures !SweptOwner(c, owner[f], d, PRIVATE, 0) { assert FrameOk(c, mem, owner, f); }
  }

  lemma SweptNoTable(c: Config, mem: Memory, owner: Ledger, owner0: Ledger, d: int, i: int)
    requires Sound(c, mem, owner) && owner == Swept(c, owner0, d, i, 0)
    requires In(c, d) && PRIVATE <= i < WORDS && !Present(mem[d][i])
    ensures owner == Swept(c, owner0, d, i + 1, 0)
  {
    forall f | f in owner0 ensures SweptOwner(c, owner0[f], d, i + 1, 0) <==> SweptOwner(c, owner0[f], d, i, 0) {
      assert f in owner;
      assert FrameOk(c, mem, owner, f);
    }
  }

  /** Passing one table entry frees the page behind it, if any, and nothing else. */
  lemma SweptPage(c: Config, mem: Memory, owner: Ledger, owner0: Ledger, d: int, i: int, j: int)
    requires Sound(c, mem, owner) && owner == Swept(c, owner0, d, i, j)
    requires In(c, d) && owner[d] == Dir && PRIVATE <= i < WORDS && 0 <= j < WORDS && Present(mem[d][i])
    ensures var t := Target(mem[d][i]);
            && In(c, t) && owner[t] == Table(d, i)
            && (Special(c, i, j) || !Present(mem[t][j]) ==> owner == Swept(c, owner0, d, i, j + 1))
            && (!Special(c, i, j) && Present(mem[t][j]) ==>
                  In(c, Target(mem[t][j])) && owner[Target(mem[t][j]) := Free] == Swept(c, owner0, d, i, j + 1))
  {
    assert DirEntryOk(c, mem, owner, d, i);
    var t := Target(mem[d][i]);
    assert TableEntryOk(c, mem, owner, t, j);
    forall f | f in owner0
      ensures SweptOwner(c, owner0[f], d, i, j + 1) <==> SweptOwner(c, owner0[f], d, i, j) || owner0[f] == Page(d, i, j)
      ensures owner0[f] == Page(d, i, j) ==> !Special(c, i, j) && Present(mem[t][j]) && Target(mem[t][j]) == f
    {
      assert f in owner;
      assert FrameOk(c, mem, owner, f);
    }
    if !Special(c, i, j) && Present(mem[t][j]) {
      var f := Target(mem[t][j]);
      assert f in owner0 && owner0[f] == Page(d, i, j);
    }
  }

  lemma SweptTable(c: Config, mem: Memory, owner: Ledger, owner0: Ledger, d: int, i: int)
    requires Sound(c, mem, owner) && owner == Swept(c, owner0, d, i, WORDS)
    requires In(c, d) && owner[d] == Dir && PRIVATE <= i < WORDS && Present(mem[d][i])
    ensures HasSpecial(c, i) ==> owner == Swept(c, owner0, d, i + 1, 0)
    ensures !HasSpecial(c, i) ==> owner[Target(mem[d][i]) := Free] == Swept(c, owner0, d, i + 1, 0)
  {
    assert DirEntryOk(c, mem, owner, d, i);
    forall f | f in owner0
      ensures SweptOwner(c, owner0[f], d, i + 1, 0) <==>
              SweptOwner(c, owner0[f], d, i, WORDS) || (owner0[f] == Table(d, i) && !HasSpecial(c, i))
      ensures owner0[f] == Table(d, i) ==> f == Target(mem[d][i])
    {
      assert f in owner;
      assert FrameOk(c, mem, owner, f);
    }
  }

  lemma SweptEmpty(c: Config, mem: Memory, owner: Ledger, owner0: Ledger, d: int, i: int, t: int)
    requires Sound(c, mem, owner) && owner == Swept(c, owner0, d, i, WORDS) && In(c, t) && owner[t] == Table(d, i)
    requires PRIVATE <= i < WORDS && !HasSpecial(c, i)
    ensures forall j :: 0 <= j < WORDS ==> mem[t][j] == 0
  {
    forall j | 0 <= j < WORDS ensures mem[t][j] == 0 {
      assert TableEntryOk(c, mem, owner, t, j);
      if Special(c, i, j) { SpecialIndex(c, i, j); }
    }
  }

  lemma NoSpecial(c: Config, i: int)
    requires ConfigOk(c) && PRIVATE <= i < WORDS && forall k :: 0 <= k < WORDS ==> !Special(c, i, k)
    ensures !HasSpecial(c, i)
  {
    assert !Special(c, i, c.io % 1024) && !Special(c, i, c.local % 1024);
  }

  lemma SweptFresh(c: Config, mem: Memory, owner: Ledger, owner0: Ledger, d: int)
    requires Sound(c, mem, owner) && owner == Swept(c, owner0, d, WORDS, 0) && In(c, d) && owner[d] == Dir
    ensures FreshShape(c, mem, owner, d)
  {
    forall f | In(c, f)
      ensures !(owner[f].Page? && owner[f].d == d)
      ensures owner[f].Table? && owner[f].d == d ==> HasSpecial(c, owner[f].i)
    {
      assert FrameOk(c, mem, owner, f);
    }
    NewSpaceFresh(c, mem, owner, d);
  }

  // ---------------------------------------------------------------- deleting

  /** Returned by delete_pd once it has passed directory index i and table index j. */
  predicate Gone(o: Owner, d: int, i: int, j: int) {
    match o
    case Page(x, a, b) => x == d && (a < i || (a == i && b < j))
    case Table(x, a) => x == d && a < i
    case _ => false
  }

  function Deleted(owner: Ledger, d: int, i: int, j: int): Ledger {
    map f | f in owner ::
      if Gone(owner[f], d, i, j) then Free else if InSpace(owner[f], f, d) then Held else owner[f]
  }

  function Returned(owner: Ledger, d: int): Ledger {
    map f | f in owner :: if InSpace(owner[f], f, d) then Free else owner[f]
  }

  /** Frames not yet returned still hold the words they held at the start. */
  ghost predicate MemLeft(c: Config, mem0: Memory, owner0: Ledger, mem: Memory, d: int, i: int, j: int)
    requires Shaped(c, mem0, owner0)
  {
    && mem.Keys == mem0.Keys
    && forall g {:trigger mem[g]} :: In(c, g) && !Gone(owner0[g], d, i, j) ==> mem[g] == mem0[g]
  }

  lemma DropKeeps(c: Config, mem: Memory, owner: Ledger, free: seq<int>, firstFree: int, avail: int, d: int)
    requires Inv(c, mem, owner, free, firstFree, avail)
    ensures Inv(c, mem, Dropped(owner, d), free, firstFree, avail)
  {
    DropSpace(c, mem, owner, d);
    PoolKept(c, mem, owner, mem, Dropped(owner, d), free, firstFree, avail);
  }

  lemma DeletedNone(c: Config, mem0: Memory, owner0: Ledger, d: int)
    requires Sound(c, mem0, owner0)
    ensures Dropped(owner0, d) == Deleted(owner0, d, PRIVATE, 0)
  {
    forall f | f in owner0 ensures !Gone(owner0[f], d, PRIVATE, 0) { assert FrameOk(c, mem0, owner0, f); }
  }

  lemma DeletedNoTable(c: Config, mem0: Memory, owner0: Ledger, d: int, i: int)
    requires Sound(c, mem0, owner0) && In(c, d) && PRIVATE <= i < WORDS && !Present(mem0[d][i])
    ensures Deleted(owner0, d, i + 1, 0) == Deleted(owner0, d, i, 0)
    ensures forall f :: f in owner0 ==> (Gone(owner0[f], d, i + 1, 0) <==> Gone(owner0[f], d, i, 0))
  {
    forall f | f in owner0 ensures Gone(owner0[f], d, i + 1, 0) <==> Gone(owner0[f], d, i, 0) {
      assert FrameOk(c, mem0, owner0, f);
    }
  }

  lemma DeletedPage(c: Config, mem0: Memory, owner0: Ledger, d: int, i: int, j: int)
    requires Sound(c, mem0, owner0) && In(c, d) && owner0[d] == Dir && PRIVATE <= i < WORDS && 0 <= j < WORDS
    requires Present(mem0[d][i]) && Target(mem0[d][i]) in mem0
    ensures var e := mem0[Target(mem0[d][i])][j];
            && (Special(c, i, j) || !Present(e) ==>
                  && Deleted(owner0, d, i, j + 1) == Deleted(owner0, d, i, j)
                  && forall f :: f in owner0 ==> (Gone(owner0[f], d, i, j + 1) <==> Gone(owner0[f], d, i, j)))
            && (!Special(c, i, j) && Present(e) ==>
                  && In(c, Target(e)) && Deleted(owner0, d, i, j)[Target(e)] == Held
                  && Deleted(owner0, d, i, j + 1) == Deleted(owner0, d, i, j)[Target(e) := Free]
                  && forall f :: f in owner0 ==> (Gone(owner0[f], d, i, j + 1) <==>
                      Gone(owner0[f], d, i, j) || f == Target(e)))
  {
    assert DirEntryOk(c, mem0, owner0, d, i);
    var t := Target(mem0[d][i]);
    assert TableEntryOk(c, mem0, owner0, t, j);
    forall f | f in owner0
      ensures Gone(owner0[f], d, i, j + 1) <==> Gone(owner0[f], d, i, j) || owner0[f] == Page(d, i, j)
      ensures owner0[f] == Page(d, i, j) ==> !Special(c, i, j) && Present(mem0[t][j]) && Target(mem0[t][j]) == f
    {
      assert FrameOk(c, mem0, owner0, f);
    }
  }

  lemma DeletedTable(c: Config, mem0: Memory, owner0: Ledger, d: int, i: int)
    requires Sound(c, mem0, owner0) && In(c, d) && owner0[d] == Dir && PRIVATE <= i < WORDS && Present(mem0[d][i])
    ensures var t := Target(mem0[d][i]);
            && In(c, t) && Deleted(owner0, d, i, WORDS)[t] == Held
            && Deleted(owner0, d, i + 1, 0) == Deleted(owner0, d, i, WORDS)[t := Free]
            && forall f :: f in owner0 ==> (Gone(owner0[f], d, i + 1, 0) <==> Gone(owner0[f], d, i, WORDS) || f == t)
  {
    assert DirEntryOk(c, mem0, owner0, d, i);
    forall f | f in owner0
      ensures Gone(owner0[f], d, i + 1, 0) <==> Gone(owner0[f], d, i, WORDS) || owner0[f] == Table(d, i)
      ensures owner0[f] == Table(d, i) ==> f == Target(mem0[d][i])
    {
      assert FrameOk(c, mem0, owner0, f);
    }
  }

  lemma DeletedAll(c: Config, mem0: Memory, owner0: Ledger, d: int)
    requires Sound(c, mem0, owner0) && In(c, d) && owner0[d] == Dir
    ensures Deleted(owner0, d, WORDS, 0)[d] == Held
    ensures Deleted(owner0, d, WORDS, 0)[d := Free] == Returned(owner0, d)
  {
    forall f | f in owner0 ensures InSpace(owner0[f], f, d) <==> Gone(owner0[f], d, WORDS, 0) || f == d {
      assert FrameOk(c, mem0, owner0, f);
    }
  }

  lemma FreeEmpty(c: Config, mem: Memory, owner: Ledger, free: seq<int>, firstFree: int, avail: int)
    requires Inv(c, mem, owner, free, firstFree, avail)
    ensures firstFree == 0 <==> free == []
  {
    assert free == [] || FreeOk(c, mem, owner, free, 0);
  }
}

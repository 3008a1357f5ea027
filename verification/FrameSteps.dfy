/** The elementary moves on frames and tables, each shown to keep the ledger true. */
module FrameSteps {
  import opened Lists
  import opened FrameSpec

  predicate Loose(o: Owner) { o == Untouched || o == Free || o == Held }

  // ---------------------------------------------------------------- frames nobody refers to

  /** A frame outside every directory and table may change hands and contents freely. */
  lemma Recolor(c: Config, mem: Memory, owner: Ledger, f: int, w: Words, o: Owner)
    requires Sound(c, mem, owner) && In(c, f) && Loose(owner[f]) && Loose(o) && |w| == WORDS
    ensures Sound(c, mem[f := w], owner[f := o])
  {
    var mem', owner' := mem[f := w], owner[f := o];
    forall g | In(c, g) ensures FrameOk(c, mem', owner', g) { assert FrameOk(c, mem, owner, g); }
    forall d, i | In(c, d) && owner'[d] == Dir && PRIVATE <= i < WORDS ensures DirEntryOk(c, mem', owner', d, i) {
      assert DirEntryOk(c, mem, owner, d, i);
    }
    forall t, j | In(c, t) && owner'[t].Table? && 0 <= j < WORDS ensures TableEntryOk(c, mem', owner', t, j) {
      assert TableEntryOk(c, mem, owner, t, j);
    }
  }

  /** The words of a new directory: the shared half, then only the APIC tables. */
  ghost predicate NewDirWords(c: Config, w: Words, t1: int, t2: int) {
    && |w| == WORDS
    && forall i :: 0 <= i < WORDS ==>
         w[i] == if i < PRIVATE then Low(c, i)
                 else if i == c.io / 1024 then Entry(t1, 7)
                 else if i == c.local / 1024 then Entry(t2, 7)
                 else 0
  }

  /** The words of a new table for directory index `i`: only APIC pages. */
  ghost predicate NewTableWords(c: Config, w: Words, i: int) {
    && |w| == WORDS
    && forall j :: 0 <= j < WORDS ==> w[j] == if Special(c, i, j) then Entry(PageNo(i, j), 3) else 0
  }

  function NewSpace(c: Config, owner: Ledger, d: int, t1: int, t2: int): Ledger {
    owner[d := Dir][t1 := Table(d, c.io / 1024)][t2 := Table(d, c.local / 1024)]
  }

  /** A directory and its APIC tables, filled in, become a space. */
  lemma NewDir(c: Config, mem: Memory, owner: Ledger, d: int, t1: int, t2: int)
    requires Sound(c, mem, owner) && In(c, d) && In(c, t1) && In(c, t2)
    requires owner[d] == Held && owner[t1] == Held && owner[t2] == Held && d != t1 && d != t2
    requires t1 == t2 <==> c.io / 1024 == c.local / 1024
    requires NewDirWords(c, mem[d], t1, t2)
    requires NewTableWords(c, mem[t1], c.io / 1024) && NewTableWords(c, mem[t2], c.local / 1024)
    ensures Sound(c, mem, NewSpace(c, owner, d, t1, t2))
  {
    EntryBits(t1, 7);
    EntryBits(t2, 7);
    var owner' := NewSpace(c, owner, d, t1, t2);
    assert Shaped(c, mem, owner');
    forall g | In(c, g) ensures FrameOk(c, mem, owner', g) { assert FrameOk(c, mem, owner, g); }
    forall x, i | In(c, x) && owner'[x] == Dir && PRIVATE <= i < WORDS ensures DirEntryOk(c, mem, owner', x, i) {
      assert x != d ==> DirEntryOk(c, mem, owner, x, i);
    }
    forall t, j | In(c, t) && owner'[t].Table? && 0 <= j < WORDS ensures TableEntryOk(c, mem, owner', t, j) {
      assert t != t1 && t != t2 ==> TableEntryOk(c, mem, owner, t, j);
    }
  }

  // ---------------------------------------------------------------- tables

  function Put(mem: Memory, f: int, k: int, e: int): Memory
    requires f in mem && 0 <= k < |mem[f]|
  {
    mem[f := mem[f][k := e]]
  }

  lemma LinkTable(c: Config, mem: Memory, owner: Ledger, d: int, i: int, t: int)
    requires Sound(c, mem, owner) && In(c, d) && owner[d] == Dir && PRIVATE <= i < WORDS && mem[d][i] == 0
    requires In(c, t) && owner[t] == Held && mem[t] == Zeros()
    ensures Sound(c, Put(mem, d, i, Entry(t, 7)), owner[t := Table(d, i)])
  {
    EntryBits(t, 7);
    assert DirEntryOk(c, mem, owner, d, i);
    forall j | 0 <= j < WORDS ensures !Special(c, i, j) { if Special(c, i, j) { SpecialIndex(c, i, j); } }
    var mem', owner' := Put(mem, d, i, Entry(t, 7)), owner[t := Table(d, i)];
    forall g | In(c, g) ensures FrameOk(c, mem', owner', g) { assert FrameOk(c, mem, owner, g); }
    forall x, k | In(c, x) && owner'[x] == Dir && PRIVATE <= k < WORDS ensures DirEntryOk(c, mem', owner', x, k) {
      assert DirEntryOk(c, mem, owner, x, k);
    }
    forall x, j | In(c, x) && owner'[x].Table? && 0 <= j < WORDS ensures TableEntryOk(c, mem', owner', x, j) {
      assert x != t ==> TableEntryOk(c, mem, owner, x, j);
    }
  }

  lemma UnlinkTable(c: Config, mem: Memory, owner: Ledger, d: int, i: int, t: int)
    requires Sound(c, mem, owner) && In(c, t) && owner[t] == Table(d, i)
    requires !HasSpecial(c, i) && forall j :: 0 <= j < WORDS ==> mem[t][j] == 0
    ensures In(c, d) && PRIVATE <= i < WORDS && Sound(c, Put(mem, d, i, 0), owner[t := Held])
  {
    assert FrameOk(c, mem, owner, t);
    var mem', owner' := Put(mem, d, i, 0), owner[t := Held];
    forall g | In(c, g) ensures FrameOk(c, mem', owner', g) { assert FrameOk(c, mem, owner, g); }
    forall x, k | In(c, x) && owner'[x] == Dir && PRIVATE <= k < WORDS ensures DirEntryOk(c, mem', owner', x, k) {
      assert DirEntryOk(c, mem, owner, x, k);
    }
    forall x, j | In(c, x) && owner'[x].Table? && 0 <= j < WORDS ensures TableEntryOk(c, mem', owner', x, j) {
      assert TableEntryOk(c, mem, owner, x, j);
    }
  }

  // ---------------------------------------------------------------- pages

  lemma MapPage(c: Config, mem: Memory, owner: Ledger, d: int, i: int, j: int, t: int, f: int)
    requires Sound(c, mem, owner) && In(c, t) && owner[t] == Table(d, i) && 0 <= j < WORDS && mem[t][j] == 0
    requires !Special(c, i, j) && In(c, f) && owner[f] == Held
    ensures Sound(c, Put(mem, t, j, Entry(f, 7)), owner[f := Page(d, i, j)])
  {
    EntryBits(f, 7);
    assert FrameOk(c, mem, owner, t);
    var mem', owner' := Put(mem, t, j, Entry(f, 7)), owner[f := Page(d, i, j)];
    forall g | In(c, g) ensures FrameOk(c, mem', owner', g) { assert FrameOk(c, mem, owner, g); }
    forall x, k | In(c, x) && owner'[x] == Dir && PRIVATE <= k < WORDS ensures DirEntryOk(c, mem', owner', x, k) {
      assert DirEntryOk(c, mem, owner, x, k);
    }
    forall x, k | In(c, x) && owner'[x].Table? && 0 <= k < WORDS ensures TableEntryOk(c, mem', owner', x, k) {
      assert TableEntryOk(c, mem, owner, x, k);
      assert x != t || k != j ==> mem'[x][k] == mem[x][k];
    }
  }

  lemma UnmapPage(c: Config, mem: Memory, owner: Ledger, d: int, i: int, j: int, t: int, f: int)
    requires Sound(c, mem, owner) && In(c, t) && owner[t] == Table(d, i) && 0 <= j < WORDS && !Special(c, i, j)
    requires Present(mem[t][j]) && Target(mem[t][j]) == f
    ensures In(c, f) && owner[f] == Page(d, i, j)
    ensures Sound(c, Put(mem, t, j, 0), owner[f := Held])
  {
    assert FrameOk(c, mem, owner, t);
    assert TableEntryOk(c, mem, owner, t, j);
    var mem', owner' := Put(mem, t, j, 0), owner[f := Held];
    forall g | In(c, g) ensures FrameOk(c, mem', owner', g) { assert FrameOk(c, mem, owner, g); }
    forall x, k | In(c, x) && owner'[x] == Dir && PRIVATE <= k < WORDS ensures DirEntryOk(c, mem', owner', x, k) {
      assert DirEntryOk(c, mem, owner, x, k);
    }
    forall x, k | In(c, x) && owner'[x].Table? && 0 <= k < WORDS ensures TableEntryOk(c, mem', owner', x, k) {
      assert TableEntryOk(c, mem, owner, x, k);
      assert x != t || k != j ==> mem'[x][k] == mem[x][k];
    }
  }

  /** The ledger after frame `f` was mapped through an entry that held `e`: a frame that was there is now
      nobody's but the caller's. */
  function Remapped(owner: Ledger, e: int, f: int, o: Owner): Ledger {
    (if Present(e) then owner[Target(e) := Held] else owner)[f := o]
  }

  /** Mapping over whatever the entry held. */
  lemma RemapPage(c: Config, mem: Memory, owner: Ledger, d: int, i: int, j: int, t: int, f: int)
    requires Sound(c, mem, owner) && In(c, t) && owner[t] == Table(d, i) && 0 <= j < WORDS && !Special(c, i, j)
    requires In(c, f) && owner[f] == Held
    ensures Present(mem[t][j]) ==> In(c, Target(mem[t][j])) && owner[Target(mem[t][j])] == Page(d, i, j)
    ensures Sound(c, Put(mem, t, j, Entry(f, 7)), Remapped(owner, mem[t][j], f, Page(d, i, j)))
  {
    assert FrameOk(c, mem, owner, t);
    assert TableEntryOk(c, mem, owner, t, j);
    var e := mem[t][j];
    if Present(e) {
      UnmapPage(c, mem, owner, d, i, j, t, Target(e));
      var mem1 := Put(mem, t, j, 0);
      MapPage(c, mem1, owner[Target(e) := Held], d, i, j, t, f);
      assert mem1[t][j := Entry(f, 7)] == mem[t][j := Entry(f, 7)];
      assert Put(mem1, t, j, Entry(f, 7)) == Put(mem, t, j, Entry(f, 7));
    } else {
      MapPage(c, mem, owner, d, i, j, t, f);
    }
  }

  // ---------------------------------------------------------------- whole spaces

  /** Frame `f` with owner `o` belongs to the space of directory `d`. */
  predicate InSpace(o: Owner, f: int, d: int) {
    match o
    case Dir => f == d
    case Table(x, _) => x == d
    case Page(x, _, _) => x == d
    case _ => false
  }

  /** The ledger once space `d` is given up: all its frames are in the caller's hands. */
  function Dropped(owner: Ledger, d: int): Ledger {
    map f | f in owner :: if InSpace(owner[f], f, d) then Held else owner[f]
  }

  lemma DropSpace(c: Config, mem: Memory, owner: Ledger, d: int)
    requires Sound(c, mem, owner)
    ensures Sound(c, mem, Dropped(owner, d))
  {
    var owner' := Dropped(owner, d);
    forall g | In(c, g) ensures FrameOk(c, mem, owner', g) { assert FrameOk(c, mem, owner, g); }
    forall x, k | In(c, x) && owner'[x] == Dir && PRIVATE <= k < WORDS ensures DirEntryOk(c, mem, owner', x, k) {
      assert DirEntryOk(c, mem, owner, x, k);
    }
    forall x, k | In(c, x) && owner'[x].Table? && 0 <= k < WORDS ensures TableEntryOk(c, mem, owner', x, k) {
      assert TableEntryOk(c, mem, owner, x, k);
    }
  }

  // ---------------------------------------------------------------- the pool

  /** Moves that neither free nor allocate leave the pool alone. */
  lemma PoolKept(c: Config, mem: Memory, owner: Ledger, mem': Memory, owner': Ledger, free: seq<int>, firstFree: int,
                 avail: int)
    requires Shaped(c, mem, owner) && Shaped(c, mem', owner') && Pool(c, mem, owner, free, firstFree, avail)
    requires forall f {:trigger owner'[f]} :: In(c, f) ==>
               (owner[f] == Free <==> owner'[f] == Free) && (owner[f] == Untouched <==> owner'[f] == Untouched)
    requires forall f {:trigger mem'[f]} :: In(c, f) && owner[f] == Free ==> mem'[f] == mem[f]
    ensures Pool(c, mem', owner', free, firstFree, avail)
  {
    forall k | 0 <= k < |free| ensures FreeOk(c, mem', owner', free, k) {
      assert FreeOk(c, mem, owner, free, k);
    }
    forall f | In(c, f) && owner'[f] == Free ensures OnList(free, f) {
    }
  }

  lemma PoolPop(c: Config, mem: Memory, owner: Ledger, free: seq<int>, firstFree: int, avail: int)
    requires Inv(c, mem, owner, free, firstFree, avail) && free != []
    ensures In(c, free[0]) && owner[free[0]] == Free && firstFree == 4096 * free[0]
    ensures mem[free[0]][0] == LinkTo(free, 1)
    ensures Inv(c, mem[free[0] := Zeros()], owner[free[0] := Held], free[1..], LinkTo(free, 1), avail)
  {
    assert FreeOk(c, mem, owner, free, 0);
    Recolor(c, mem, owner, free[0], Zeros(), Held);
    var mem', owner', free' := mem[free[0] := Zeros()], owner[free[0] := Held], free[1..];
    forall k | 0 <= k < |free'| ensures FreeOk(c, mem', owner', free', k) {
      assert FreeOk(c, mem, owner, free, k + 1) && Differ(free, 0, k + 1);
    }
    forall j, k | 0 <= j < k < |free'| ensures Differ(free', j, k) { assert Differ(free, j + 1, k + 1); }
    forall f | In(c, f) && owner'[f] == Free ensures OnList(free', f) {
      assert OnList(free, f);
      var k :| 0 <= k < |free| && free[k] == f;
      assert free'[k - 1] == f;
    }
  }

  lemma PoolBump(c: Config, mem: Memory, owner: Ledger, free: seq<int>, firstFree: int, avail: int)
    requires Inv(c, mem, owner, free, firstFree, avail) && avail < c.limit
    ensures owner[avail] == Untouched
    ensures Inv(c, mem[avail := Zeros()], owner[avail := Held], free, firstFree, avail + 1)
  {
    Recolor(c, mem, owner, avail, Zeros(), Held);
    var mem', owner' := mem[avail := Zeros()], owner[avail := Held];
    forall k | 0 <= k < |free| ensures FreeOk(c, mem', owner', free, k) {
      assert FreeOk(c, mem, owner, free, k);
    }
    forall f | In(c, f) && owner'[f] == Free ensures OnList(free, f) {
    }
  }

  lemma PoolPush(c: Config, mem: Memory, owner: Ledger, free: seq<int>, firstFree: int, avail: int, f: int)
    requires Inv(c, mem, owner, free, firstFree, avail) && In(c, f) && owner[f] == Held
    ensures Inv(c, Put(mem, f, 0, firstFree), owner[f := Free], [f] + free, 4096 * f, avail)
  {
    Recolor(c, mem, owner, f, mem[f][0 := firstFree], Free);
    var mem', owner', free' := Put(mem, f, 0, firstFree), owner[f := Free], [f] + free;
    forall k | 0 <= k < |free'| ensures FreeOk(c, mem', owner', free', k) {
      assert 0 < k ==> FreeOk(c, mem, owner, free, k - 1);
    }
    forall j, k | 0 <= j < k < |free'| ensures Differ(free', j, k) {
      assert FreeOk(c, mem, owner, free, k - 1);
      assert 0 < j ==> Differ(free, j - 1, k - 1);
    }
    forall g | In(c, g) && owner'[g] == Free ensures OnList(free', g) {
      assert free'[0] == f;
      assert g != f ==> OnList(free, g);
    }
  }
}

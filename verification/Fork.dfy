/** Process::fork: the child gets its own copy of every private page of the parent. */
module Fork {
  import opened FrameSpec
  import opened FrameSteps
  import opened Paging

  /** (a, b) comes before (i, j) in the order of the copy loops. */
  predicate Before(a: int, b: int, i: int, j: int) { a < i || (a == i && b < j) }

  ghost predicate HasPage(owner: Ledger, d: int, i: int, j: int) {
    exists g :: g in owner && owner[g] == Page(d, i, j)
  }

  /** A child page holds what the parent's page at the same address holds. */
  ghost predicate CopyOk(mem0: Memory, mem: Memory, owner: Ledger, d: int, ch: int, i: int, j: int, g: int)
    requires g in owner && g in mem && owner[g].Page?
  {
    var Page(x, a, b) := owner[g];
    x == ch ==> Before(a, b, i, j) && Lookup(mem0, d, a, b) in mem0 && mem[g] == mem0[Lookup(mem0, d, a, b)]
  }

  ghost predicate CopyDone(owner0: Ledger, owner: Ledger, d: int, ch: int, i: int, j: int, f: int)
    requires f in owner0 && owner0[f].Page?
  {
    var Page(x, a, b) := owner0[f];
    x == d && Before(a, b, i, j) ==> HasPage(owner, ch, a, b)
  }

  /** The copy has passed exactly the pages before (i, j); everything in use before fork is as it was. */
  ghost predicate Copying(c: Config, mem0: Memory, owner0: Ledger, mem: Memory, owner: Ledger, d: int, ch: int,
                          i: int, j: int)
    requires Shaped(c, mem0, owner0) && Shaped(c, mem, owner)
  {
    && In(c, d) && owner0[d] == Dir && In(c, ch) && owner[ch] == Dir && !Taken(owner0[ch])
    && Kept(c, mem0, owner0, mem, owner)
    && (forall g {:trigger CopyOk(mem0, mem, owner, d, ch, i, j, g)} ::
          In(c, g) && owner[g].Page? ==> CopyOk(mem0, mem, owner, d, ch, i, j, g))
    && (forall f {:trigger CopyDone(owner0, owner, d, ch, i, j, f)} ::
          In(c, f) && owner0[f].Page? ==> CopyDone(owner0, owner, d, ch, i, j, f))
  }

  lemma CopyStart(c: Config, mem0: Memory, owner0: Ledger, mem: Memory, owner: Ledger, d: int, ch: int)
    requires Sound(c, mem0, owner0) && Sound(c, mem, owner) && In(c, d) && owner0[d] == Dir
    requires In(c, ch) && !Taken(owner0[ch]) && FreshShape(c, mem, owner, ch) && Kept(c, mem0, owner0, mem, owner)
    ensures Copying(c, mem0, owner0, mem, owner, d, ch, PRIVATE, 0)
  {
    forall g | In(c, g) && owner[g].Page? ensures CopyOk(mem0, mem, owner, d, ch, PRIVATE, 0, g) {
      assert FrameOk(c, mem, owner, g);
      var t := Target(mem[owner[g].d][owner[g].i]);
      assert owner[t].Table?;
    }
    forall f | In(c, f) && owner0[f].Page? ensures CopyDone(owner0, owner, d, ch, PRIVATE, 0, f) {
      assert FrameOk(c, mem0, owner0, f);
    }
  }

  /** A directory index the parent has no table for has no pages to copy. */
  lemma CopyNoTable(c: Config, mem0: Memory, owner0: Ledger, mem: Memory, owner: Ledger, d: int, ch: int, i: int)
    requires Sound(c, mem0, owner0) && Sound(c, mem, owner) && PRIVATE <= i < WORDS
    requires Copying(c, mem0, owner0, mem, owner, d, ch, i, 0) && !Present(mem0[d][i])
    ensures Copying(c, mem0, owner0, mem, owner, d, ch, i + 1, 0)
  {
    forall g | In(c, g) && owner[g].Page? ensures CopyOk(mem0, mem, owner, d, ch, i + 1, 0, g) {
      assert CopyOk(mem0, mem, owner, d, ch, i, 0, g);
    }
    forall f | In(c, f) && owner0[f].Page? ensures CopyDone(owner0, owner, d, ch, i + 1, 0, f) {
      assert CopyDone(owner0, owner, d, ch, i, 0, f);
      assert FrameOk(c, mem0, owner0, f);
    }
  }

  lemma CopyRow(c: Config, mem0: Memory, owner0: Ledger, mem: Memory, owner: Ledger, d: int, ch: int, i: int)
    requires Sound(c, mem0, owner0) && Sound(c, mem, owner)
    requires Copying(c, mem0, owner0, mem, owner, d, ch, i, WORDS)
    ensures Copying(c, mem0, owner0, mem, owner, d, ch, i + 1, 0)
  {
    forall g | In(c, g) && owner[g].Page? ensures CopyOk(mem0, mem, owner, d, ch, i + 1, 0, g) {
      assert CopyOk(mem0, mem, owner, d, ch, i, WORDS, g);
    }
    forall f | In(c, f) && owner0[f].Page? ensures CopyDone(owner0, owner, d, ch, i + 1, 0, f) {
      assert CopyDone(owner0, owner, d, ch, i, WORDS, f);
      assert FrameOk(c, mem0, owner0, f);
    }
  }

  lemma NotYetCopied(c: Config, mem0: Memory, owner0: Ledger, mem: Memory, owner: Ledger, d: int, ch: int, i: int,
                     j: int)
    requires Sound(c, mem, owner) && PRIVATE <= i < WORDS && 0 <= j < WORDS && !Special(c, i, j)
    requires Shaped(c, mem0, owner0) && Copying(c, mem0, owner0, mem, owner, d, ch, i, j)
    ensures Lookup(mem, ch, i, j) == -1
  {
    TranslationIsLedger(c, mem, owner, ch, i, j, ch);
    forall g | In(c, g) && owner[g].Page? ensures owner[g] != Page(ch, i, j) {
      assert CopyOk(mem0, mem, owner, d, ch, i, j, g);
    }
  }

  /** The skipped entries: present in the child means special, absent in the parent means nothing to copy. */
  lemma CopySkip(c: Config, mem0: Memory, owner0: Ledger, mem: Memory, owner: Ledger, d: int, ch: int, i: int, j: int)
    requires Sound(c, mem0, owner0) && Sound(c, mem, owner) && PRIVATE <= i < WORDS && 0 <= j < WORDS
    requires Copying(c, mem0, owner0, mem, owner, d, ch, i, j)
    requires Lookup(mem, ch, i, j) != -1 || Lookup(mem0, d, i, j) == -1
    ensures Copying(c, mem0, owner0, mem, owner, d, ch, i, j + 1)
  {
    if !Special(c, i, j) { NotYetCopied(c, mem0, owner0, mem, owner, d, ch, i, j); }
    forall g | In(c, g) && owner[g].Page? ensures CopyOk(mem0, mem, owner, d, ch, i, j + 1, g) {
      assert CopyOk(mem0, mem, owner, d, ch, i, j, g);
    }
    forall f | In(c, f) && owner0[f].Page? ensures CopyDone(owner0, owner, d, ch, i, j + 1, f) {
      assert CopyDone(owner0, owner, d, ch, i, j, f) && FrameOk(c, mem0, owner0, f);
      assert owner0[f] != Page(d, i, j);
    }
  }

  /** Allocating and filling frames nobody uses, and linking them below the child, keeps the copy on course. */
  lemma CopyGrows(c: Config, mem0: Memory, owner0: Ledger, mem: Memory, owner: Ledger, mem': Memory, owner': Ledger,
                  d: int, ch: int, i: int, j: int)
    requires Sound(c, mem0, owner0) && Shaped(c, mem, owner) && Shaped(c, mem', owner')
    requires Copying(c, mem0, owner0, mem, owner, d, ch, i, j)
    requires forall g {:trigger owner'[g]} :: In(c, g) && Taken(owner[g]) ==> owner'[g] == owner[g]
    requires forall g {:trigger owner'[g]} :: In(c, g) && !Taken(owner[g]) ==> !owner'[g].Page?
    requires forall g {:trigger mem'[g]} ::
               In(c, g) && Taken(owner[g]) && g != ch && !(owner[g].Table? && owner[g].d == ch) ==> mem'[g] == mem[g]
    ensures Copying(c, mem0, owner0, mem', owner', d, ch, i, j)
  {
    forall f | In(c, f) && Taken(owner0[f]) ensures owner'[f] == owner0[f] && mem'[f] == mem0[f] {
      assert owner[f] == owner0[f] && mem[f] == mem0[f];
      assert FrameOk(c, mem0, owner0, f);
    }
    forall g | In(c, g) && owner'[g].Page? ensures CopyOk(mem0, mem', owner', d, ch, i, j, g) {
      assert Taken(owner[g]) && owner[g] == owner'[g] && CopyOk(mem0, mem, owner, d, ch, i, j, g);
    }
    forall f | In(c, f) && owner0[f].Page? ensures CopyDone(owner0, owner', d, ch, i, j, f) {
      assert CopyDone(owner0, owner, d, ch, i, j, f);
      var Page(x, a, b) := owner0[f];
      if x == d && Before(a, b, i, j) {
        var g :| g in owner && owner[g] == Page(ch, a, b);
        assert owner'[g] == Page(ch, a, b);
      }
    }
  }

  /** Mapping the filled frame `g` at (i, j) in the child passes that page. */
  lemma CopyAdd(c: Config, mem0: Memory, owner0: Ledger, mem: Memory, owner: Ledger, d: int, ch: int, i: int, j: int,
                t: int, g: int)
    requires Sound(c, mem0, owner0) && Sound(c, mem, owner) && Copying(c, mem0, owner0, mem, owner, d, ch, i, j)
    requires In(c, t) && owner[t] == Table(ch, i) && 0 <= j < WORDS && In(c, g) && owner[g] == Held && !Taken(owner0[g])
    requires Lookup(mem0, d, i, j) in mem0 && mem[g] == mem0[Lookup(mem0, d, i, j)]
    ensures Copying(c, mem0, owner0, Put(mem, t, j, Entry(g, 7)), owner[g := Page(ch, i, j)], d, ch, i, j + 1)
  {
    var mem', owner' := Put(mem, t, j, Entry(g, 7)), owner[g := Page(ch, i, j)];
    forall f | In(c, f) && Taken(owner0[f]) ensures owner'[f] == owner0[f] && mem'[f] == mem0[f] {
      assert owner[f] == owner0[f] && mem[f] == mem0[f];
      assert FrameOk(c, mem0, owner0, f);
    }
    forall x | In(c, x) && owner'[x].Page? ensures CopyOk(mem0, mem', owner', d, ch, i, j + 1, x) {
      assert x != g ==> CopyOk(mem0, mem, owner, d, ch, i, j, x);
    }
    forall f | In(c, f) && owner0[f].Page? ensures CopyDone(owner0, owner', d, ch, i, j + 1, f) {
      assert CopyDone(owner0, owner, d, ch, i, j, f);
      var Page(x, a, b) := owner0[f];
      if x == d && Before(a, b, i, j) {
        var y :| y in owner && owner[y] == Page(ch, a, b);
        assert owner'[y] == Page(ch, a, b);
      } else if x == d && Before(a, b, i, j + 1) {
        assert owner'[g] == Page(ch, a, b);
      }
    }
  }

  /** Child page (i, j) mirrors the parent's. */
  ghost predicate Mirrors(mem0: Memory, d: int, mem: Memory, ch: int, i: int, j: int) {
    var p, q := Lookup(mem0, d, i, j), Lookup(mem, ch, i, j);
    && (p == -1 <==> q == -1)
    && (q != -1 ==> p in mem0 && q in mem && mem[q] == mem0[p] && q != p)
  }

  lemma CopyComplete(c: Config, mem0: Memory, owner0: Ledger, mem: Memory, owner: Ledger, d: int, ch: int, i: int,
                     j: int)
    requires Sound(c, mem0, owner0) && Sound(c, mem, owner) && PRIVATE <= i < WORDS && 0 <= j < WORDS &&
               !Special(c, i, j)
    requires Copying(c, mem0, owner0, mem, owner, d, ch, WORDS, 0)
    ensures Mirrors(mem0, d, mem, ch, i, j)
  {
    var p, q := Lookup(mem0, d, i, j), Lookup(mem, ch, i, j);
    TranslationIsLedger(c, mem0, owner0, d, i, j, d);
    TranslationIsLedger(c, mem, owner, ch, i, j, d);
    if q != -1 { assert CopyOk(mem0, mem, owner, d, ch, WORDS, 0, q); }
    if p != -1 {
      assert CopyDone(owner0, owner, d, ch, WORDS, 0, p);
      var g :| g in owner && owner[g] == Page(ch, i, j);
      TranslationIsLedger(c, mem, owner, ch, i, j, g);
    }
  }

  /** The machine before fork (mem0, owner0) and in the middle of it. */
  datatype CopyState = CopyState(c: Config, mem: Memory, owner: Ledger, mem0: Memory, owner0: Ledger)

  /** Filling the allocated frame `f` and mapping it at (i, j) in the child keeps the machine valid, passes that
      page and leaks nothing. */
  lemma PageCopied(s: CopyState, free: seq<int>, firstFree: int, avail: int,
                   d: int, ch: int, i: int, j: int, t: int, f: int)
    requires Sound(s.c, s.mem0, s.owner0) && Sound(s.c, s.mem, s.owner)
    requires Copying(s.c, s.mem0, s.owner0, s.mem, s.owner, d, ch, i, j)
    requires In(s.c, t) && s.owner[t] == Table(ch, i) && 0 <= j < WORDS && s.mem[t][j] == 0 && !Special(s.c, i, j)
    requires In(s.c, f) && !Taken(s.owner[f])
    requires Inv(s.c, s.mem[f := Zeros()], s.owner[f := Held], free, firstFree, avail)
    requires Lookup(s.mem0, d, i, j) in s.mem0 && Taken(s.owner0[Lookup(s.mem0, d, i, j)])
    ensures var src := Lookup(s.mem0, d, i, j);
            var mem', owner' := Put(s.mem[f := s.mem0[src]], t, j, Entry(f, 7)), s.owner[f := Page(ch, i, j)];
            && s.mem[src] == s.mem0[src] && src != f && t != f
            && Inv(s.c, mem', owner', free, firstFree, avail)
            && Copying(s.c, s.mem0, s.owner0, mem', owner', d, ch, i, j + 1)
            && (NoLeak(s.owner0, s.owner, ch) ==> NoLeak(s.owner0, owner', ch))
  {
    var c, w := s.c, s.mem0[Lookup(s.mem0, d, i, j)];
    var mem1, mem2, owner2 := s.mem[f := Zeros()], s.mem[f := w], s.owner[f := Held];
    HeldFill(c, mem1, owner2, free, firstFree, avail, f, w);
    assert mem1[f := w] == mem2;
    CopyGrows(c, s.mem0, s.owner0, s.mem, s.owner, mem2, owner2, d, ch, i, j);
    CopyAdd(c, s.mem0, s.owner0, mem2, owner2, d, ch, i, j, t, f);
    MapPage(c, mem2, owner2, ch, i, j, t, f);
    assert owner2[f := Page(ch, i, j)] == s.owner[f := Page(ch, i, j)];
    PoolKept(c, mem2, owner2, Put(mem2, t, j, Entry(f, 7)), owner2[f := Page(ch, i, j)], free, firstFree, avail);
  }

  /** Copies the parent's page at (i, j), backed by `src`, to a new frame of the child. */
  method CopyPage(m: Machine, ghost mem0: Memory, ghost owner0: Ledger, ghost d: int, ch: int, i: int, j: int, t: int,
                  src: int)
    returns (ok: bool)
    requires m.Valid() && Sound(m.c, mem0, owner0) && Copying(m.c, mem0, owner0, m.mem, m.owner, d, ch, i, j)
    requires In(m.c, t) && m.owner[t] == Table(ch, i) && 0 <= j < WORDS && m.mem[t][j] == 0 && !Special(m.c, i, j)
    requires src == Lookup(mem0, d, i, j) && In(m.c, src) && Taken(owner0[src])
    modifies m
    ensures m.Valid()
    ensures !ok ==> m.free == [] && m.avail == m.c.limit
    ensures ok ==> Copying(m.c, mem0, owner0, m.mem, m.owner, d, ch, i, j + 1)
    ensures ok ==> m.owner[t] == Table(ch, i) && m.mem[ch] == old(m.mem[ch])
    ensures ok && NoLeak(owner0, old(m.owner), ch) ==> NoLeak(owner0, m.owner, ch)
  {
    ghost var s := CopyState(m.c, m.mem, m.owner, mem0, owner0);
    var f;
    ok, f := m.SomeFrame();
    if !ok { return; }
    PageCopied(s, m.free, m.firstFree, m.avail, d, ch, i, j, t, f);
    m.mem := m.mem[f := m.mem[src]];
    m.mem := Put(m.mem, t, j, Entry(f, 7));
    m.owner := m.owner[f := Page(ch, i, j)];
    assert m.mem == Put(s.mem[f := mem0[src]], t, j, Entry(f, 7)) && m.owner == s.owner[f := Page(ch, i, j)];
  }

  /** One round of fork's inner loop: the page at (i, j), unless the child has it or the parent does not. */
  method CopyEntry(m: Machine, ghost mem0: Memory, ghost owner0: Ledger, ghost d: int, ch: int, i: int, j: int,
                   t: int, parentTable: int)
    returns (ok: bool)
    requires m.Valid() && Sound(m.c, mem0, owner0) && Copying(m.c, mem0, owner0, m.mem, m.owner, d, ch, i, j)
    requires PRIVATE <= i < WORDS && 0 <= j < WORDS && Present(mem0[d][i]) && parentTable == Target(mem0[d][i])
    requires In(m.c, t) && m.owner[t] == Table(ch, i) && NoLeak(owner0, m.owner, ch)
    modifies m
    ensures m.Valid()
    ensures !ok ==> m.free == [] && m.avail == m.c.limit
    ensures ok ==> Copying(m.c, mem0, owner0, m.mem, m.owner, d, ch, i, j + 1)
    ensures ok ==> m.owner[t] == Table(ch, i) && NoLeak(owner0, m.owner, ch)
  {
    ok := true;
    PageView(m.c, mem0, owner0, m.mem, m.owner, d, ch, i, j, t, parentTable);
    if Present(m.mem[t][j]) || !Present(m.mem[parentTable][j]) {
      CopySkip(m.c, mem0, owner0, m.mem, m.owner, d, ch, i, j);
    } else {
      ok := CopyPage(m, mem0, owner0, d, ch, i, j, t, Target(m.mem[parentTable][j]));
    }
  }

  /** The child's table for directory index `i`, allocated if make_pd left none. */
  method ChildTable(m: Machine, ghost mem0: Memory, ghost owner0: Ledger, ghost d: int, ch: int, i: int)
    returns (ok: bool, t: int)
    requires m.Valid() && Sound(m.c, mem0, owner0) && Copying(m.c, mem0, owner0, m.mem, m.owner, d, ch, i, 0)
    requires PRIVATE <= i < WORDS && NoLeak(owner0, m.owner, ch)
    modifies m
    ensures m.Valid()
    ensures !ok ==> m.free == [] && m.avail == m.c.limit
    ensures ok ==> In(m.c, t) && m.owner[t] == Table(ch, i) && NoLeak(owner0, m.owner, ch)
    ensures ok ==> Copying(m.c, mem0, owner0, m.mem, m.owner, d, ch, i, 0)
  {
    ghost var mem1, owner1 := m.mem, m.owner;
    ok, t := m.TableFor(ch, i);
    if !ok { return; }
    CopyGrows(m.c, mem0, owner0, mem1, owner1, m.mem, m.owner, d, ch, i, 0);
  }

  /** One round of fork's outer loop: the pages below directory index `i`. */
  method CopyTable(m: Machine, ghost mem0: Memory, ghost owner0: Ledger, d: int, ch: int, i: int) returns (ok: bool)
    requires m.Valid() && Sound(m.c, mem0, owner0) && Copying(m.c, mem0, owner0, m.mem, m.owner, d, ch, i, 0)
    requires PRIVATE <= i < WORDS && Present(mem0[d][i]) && NoLeak(owner0, m.owner, ch)
    modifies m
    ensures m.Valid()
    ensures !ok ==> m.free == [] && m.avail == m.c.limit
    ensures ok ==> Copying(m.c, mem0, owner0, m.mem, m.owner, d, ch, i + 1, 0) && NoLeak(owner0, m.owner, ch)
  {
    assert m.mem[d] == mem0[d] && DirEntryOk(m.c, mem0, owner0, d, i);
    var parentTable := Target(m.mem[d][i]);
    assert owner0[parentTable] == Table(d, i);
    var t;
    ok, t := ChildTable(m, mem0, owner0, d, ch, i);
    if !ok { return; }
    var j := 0;
    while j < WORDS
      invariant 0 <= j <= WORDS && m.Valid() && Copying(m.c, mem0, owner0, m.mem, m.owner, d, ch, i, j)
      invariant In(m.c, t) && m.owner[t] == Table(ch, i) && NoLeak(owner0, m.owner, ch)
    {
      ok := CopyEntry(m, mem0, owner0, d, ch, i, j, t, parentTable);
      if !ok { return; }
      j := j + 1;
    }
    CopyRow(m.c, mem0, owner0, m.mem, m.owner, d, ch, i);
  }

  /** What the copy loop reads at (i, j) in the parent's and the child's table. */
  lemma PageView(c: Config, mem0: Memory, owner0: Ledger, mem: Memory, owner: Ledger, d: int, ch: int, i: int, j: int,
                 t: int, pt: int)
    requires Sound(c, mem0, owner0) && Sound(c, mem, owner) && Copying(c, mem0, owner0, mem, owner, d, ch, i, j)
    requires PRIVATE <= i < WORDS && 0 <= j < WORDS && Present(mem0[d][i]) && pt == Target(mem0[d][i])
    requires In(c, t) && owner[t] == Table(ch, i)
    ensures In(c, pt) && mem[pt] == mem0[pt]
    ensures Present(mem[t][j]) <==> Lookup(mem, ch, i, j) != -1
    ensures !Present(mem[t][j]) ==> mem[t][j] == 0 && !Special(c, i, j)
    ensures Lookup(mem0, d, i, j) == if Present(mem[pt][j]) then Target(mem[pt][j]) else -1
    ensures Present(mem[pt][j]) && !Special(c, i, j) ==> In(c, Target(mem[pt][j])) && Taken(owner0[Target(mem[pt][j])])
  {
    assert DirEntryOk(c, mem0, owner0, d, i) && owner0[pt] == Table(d, i);
    assert FrameOk(c, mem, owner, t) && TableEntryOk(c, mem, owner, t, j) && TableEntryOk(c, mem0, owner0, pt, j);
    EntryBits(PageNo(i, j), 3);
  }

  /** fork's address-space copy. */
  method ForkSpace(m: Machine, d: int) returns (ok: bool, ch: int)
    requires m.Valid() && In(m.c, d) && m.owner[d] == Dir
    modifies m
    ensures m.Valid()
    ensures !ok ==> m.free == [] && m.avail == m.c.limit
    ensures ok ==> In(m.c, ch) && m.owner[ch] == Dir && !Taken(old(m.owner)[ch])
    ensures ok ==> Kept(m.c, old(m.mem), old(m.owner), m.mem, m.owner) && NoLeak(old(m.owner), m.owner, ch)
    ensures ok ==> forall i, j :: PRIVATE <= i < WORDS && 0 <= j < WORDS && !Special(m.c, i, j) ==>
                     Mirrors(old(m.mem), d, m.mem, ch, i, j)
  {
    ghost var mem0, owner0 := m.mem, m.owner;
    ok, ch := m.MakePd();
    if !ok { return; }
    CopyStart(m.c, mem0, owner0, m.mem, m.owner, d, ch);
    var i := PRIVATE;
    while i < WORDS
      invariant PRIVATE <= i <= WORDS && m.Valid() && Copying(m.c, mem0, owner0, m.mem, m.owner, d, ch, i, 0)
      invariant NoLeak(owner0, m.owner, ch)
    {
      assert m.mem[d] == mem0[d];
      if Present(m.mem[d][i]) {
        ok := CopyTable(m, mem0, owner0, d, ch, i);
        if !ok { return; }
      } else {
        CopyNoTable(m.c, mem0, owner0, m.mem, m.owner, d, ch, i);
      }
      i := i + 1;
    }
    forall i, j | PRIVATE <= i < WORDS && 0 <= j < WORDS && !Special(m.c, i, j)
      ensures Mirrors(mem0, d, m.mem, ch, i, j)
    {
      CopyComplete(m.c, mem0, owner0, m.mem, m.owner, d, ch, i, j);
    }
    ok := true;
  }
}

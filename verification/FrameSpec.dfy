/** Physical frames and two-level page tables as values.

    Frames are named by frame number (physical address / 4096), pages by the pair
    (directory index, table index) of their address. The ledger `owner` says whose
    every managed frame is; the invariant ties it to the words of memory. Because the
    ledger is a map, frames with different roles are disjoint by construction. */
module FrameSpec {
  import opened Lists

  const WORDS: int := 1024
  const PRIVATE: int := 512

  type Words = seq<int>
  type Memory = map<int, Words>

  /** Managed range, the two APIC page numbers, and the shared half of every directory. */
  datatype Config = Config(start: int, limit: int, io: int, local: int, low: seq<int>)

  ghost predicate ConfigOk(c: Config) {
    && 0 < c.start <= c.limit <= 0x10_0000
    && 0x8_0000 <= c.io < 0x10_0000 && 0x8_0000 <= c.local < 0x10_0000
    && |c.low| <= PRIVATE
  }

  datatype Owner =
    | Untouched
    | Free
    | Held                                  // allocated, in the caller's hands
    | Dir
    | Table(d: int, i: int)
    | Page(d: int, i: int, j: int)

  type Ledger = map<int, Owner>

  // ---------------------------------------------------------------- entries

  function Entry(f: int, bits: int): int { 4096 * f + bits }
  predicate Present(e: int) { e % 2 == 1 }
  function Target(e: int): int { e / 4096 }

  function PageNo(i: int, j: int): int { 1024 * i + j }

  /** is_special for the page at (i, j). */
  predicate Special(c: Config, i: int, j: int) {
    i < PRIVATE || PageNo(i, j) == c.io || PageNo(i, j) == c.local
  }

  /** Directory index `i` holds one of the two APIC pages. */
  predicate HasSpecial(c: Config, i: int) { i == c.io / 1024 || i == c.local / 1024 }

  lemma SpecialIndex(c: Config, i: int, j: int)
    requires ConfigOk(c) && PRIVATE <= i < WORDS && 0 <= j < WORDS && Special(c, i, j)
    ensures HasSpecial(c, i)
  {
  }

  function Zeros(): (w: Words)
    ensures |w| == WORDS && forall j :: 0 <= j < WORDS ==> w[j] == 0
  {
    seq(WORDS, _ => 0)
  }

  function Low(c: Config, i: int): int
    requires 0 <= i
  {
    if i < |c.low| then c.low[i] else 0
  }

  // ---------------------------------------------------------------- invariant

  predicate In(c: Config, f: int) { c.start <= f < c.limit }

  /** The managed frames all have 1024 words and an owner. */
  ghost predicate Shaped(c: Config, mem: Memory, owner: Ledger) {
    && (forall f {:trigger mem[f]} {:trigger f in mem} :: f in mem <==> In(c, f))
    && (forall f {:trigger owner[f]} {:trigger f in owner} :: f in owner <==> In(c, f))
    && (forall f {:trigger mem[f]} :: f in mem ==> |mem[f]| == WORDS)
  }

  /** A frame is where its ledger entry says it is. */
  ghost predicate FrameOk(c: Config, mem: Memory, owner: Ledger, f: int)
    requires Shaped(c, mem, owner) && In(c, f)
  {
    match owner[f]
    case Dir => forall i :: 0 <= i < PRIVATE ==> mem[f][i] == Low(c, i)
    case Table(d, i) =>
      && In(c, d) && owner[d] == Dir && PRIVATE <= i < WORDS
      && Present(mem[d][i]) && Target(mem[d][i]) == f
    case Page(d, i, j) =>
      && In(c, d) && owner[d] == Dir && PRIVATE <= i < WORDS && 0 <= j < WORDS && !Special(c, i, j)
      && Present(mem[d][i])
      && (var t := Target(mem[d][i]);
          In(c, t) && owner[t] == Table(d, i) && Present(mem[t][j]) && Target(mem[t][j]) == f)
    case _ => true
  }

  /** A private directory entry is empty or names the table recorded for it; APIC entries are never empty. */
  ghost predicate DirEntryOk(c: Config, mem: Memory, owner: Ledger, d: int, i: int)
    requires Shaped(c, mem, owner) && In(c, d) && PRIVATE <= i < WORDS
  {
    var e := mem[d][i];
    if e == 0 then !HasSpecial(c, i)
    else Present(e) && e == Entry(Target(e), 7) && In(c, Target(e)) && owner[Target(e)] == Table(d, i)
  }

  /** A table entry maps the APIC page it stands for, is empty, or names the data frame recorded for it. */
  ghost predicate TableEntryOk(c: Config, mem: Memory, owner: Ledger, t: int, j: int)
    requires Shaped(c, mem, owner) && In(c, t) && owner[t].Table? && 0 <= j < WORDS
  {
    var e := mem[t][j];
    var Table(d, i) := owner[t];
    if Special(c, i, j) then e == Entry(PageNo(i, j), 3)
    else e == 0 || (Present(e) && e == Entry(Target(e), 7) && In(c, Target(e)) && owner[Target(e)] == Page(d, i, j))
  }

  ghost predicate Sound(c: Config, mem: Memory, owner: Ledger) {
    && ConfigOk(c) && Shaped(c, mem, owner)
    && (forall f {:trigger FrameOk(c, mem, owner, f)} :: In(c, f) ==> FrameOk(c, mem, owner, f))
    && (forall d, i {:trigger DirEntryOk(c, mem, owner, d, i)} ::
          In(c, d) && owner[d] == Dir && PRIVATE <= i < WORDS ==> DirEntryOk(c, mem, owner, d, i))
    && (forall t, j {:trigger TableEntryOk(c, mem, owner, t, j)} ::
          In(c, t) && owner[t].Table? && 0 <= j < WORDS ==> TableEntryOk(c, mem, owner, t, j))
  }

  /** Address of the k-th free frame, null past the end. */
  function LinkTo(free: seq<int>, k: int): int { if 0 <= k < |free| then 4096 * free[k] else 0 }

  ghost predicate FreeOk(c: Config, mem: Memory, owner: Ledger, free: seq<int>, k: int)
    requires Shaped(c, mem, owner) && 0 <= k < |free|
  {
    In(c, free[k]) && owner[free[k]] == Free && mem[free[k]][0] == LinkTo(free, k + 1)
  }

  ghost predicate OnList(free: seq<int>, f: int) { f in free }

  /** The free list threads exactly the free frames, each once; the untouched range is [avail, limit). */
  ghost predicate Pool(c: Config, mem: Memory, owner: Ledger, free: seq<int>, firstFree: int, avail: int)
    requires Shaped(c, mem, owner)
  {
    && firstFree == LinkTo(free, 0) && c.start <= avail <= c.limit
    && (forall k {:trigger FreeOk(c, mem, owner, free, k)} :: 0 <= k < |free| ==> FreeOk(c, mem, owner, free, k))
    && (forall j, k {:trigger Differ(free, j, k)} :: 0 <= j < k < |free| ==> Differ(free, j, k))
    && (forall f {:trigger OnList(free, f)} :: In(c, f) && owner[f] == Free ==> OnList(free, f))
    && (forall f {:trigger owner[f]} :: In(c, f) ==> (owner[f] == Untouched <==> avail <= f))
  }

  ghost predicate Inv(c: Config, mem: Memory, owner: Ledger, free: seq<int>, firstFree: int, avail: int) {
    Sound(c, mem, owner) && Pool(c, mem, owner, free, firstFree, avail)
  }

  // ---------------------------------------------------------------- translation

  /** The frame that directory `d` maps page (i, j) to, or -1. */
  function Lookup(mem: Memory, d: int, i: int, j: int): int {
    if d in mem && 0 <= i < |mem[d]| && Present(mem[d][i]) then
      var t := Target(mem[d][i]);
      if t in mem && 0 <= j < |mem[t]| && Present(mem[t][j]) then Target(mem[t][j]) else -1
    else -1
  }

  /** The hardware's translation of private pages is exactly the ledger: no frame is mapped twice. */
  lemma TranslationIsLedger(c: Config, mem: Memory, owner: Ledger, d: int, i: int, j: int, f: int)
    requires Sound(c, mem, owner) && In(c, d) && owner[d] == Dir
    requires PRIVATE <= i < WORDS && 0 <= j < WORDS && !Special(c, i, j) && In(c, f)
    ensures Lookup(mem, d, i, j) == f <==> owner[f] == Page(d, i, j)
    ensures Lookup(mem, d, i, j) == -1 || (In(c, Lookup(mem, d, i, j)) && owner[Lookup(mem, d, i, j)] == Page(d, i, j))
  {
    assert DirEntryOk(c, mem, owner, d, i);
    assert FrameOk(c, mem, owner, f);
    if Present(mem[d][i]) {
      assert TableEntryOk(c, mem, owner, Target(mem[d][i]), j);
    }
  }

  /** No page of one space is a page of another, nor a second page of the same. */
  lemma PagesNeverShared(c: Config, mem: Memory, owner: Ledger, d: int, i: int, j: int, d': int, i': int, j': int)
    requires Sound(c, mem, owner) && In(c, d) && owner[d] == Dir && In(c, d') && owner[d'] == Dir
    requires PRIVATE <= i < WORDS && 0 <= j < WORDS && !Special(c, i, j)
    requires PRIVATE <= i' < WORDS && 0 <= j' < WORDS && !Special(c, i', j')
    requires Lookup(mem, d, i, j) == Lookup(mem, d', i', j') != -1
    ensures d == d' && i == i' && j == j'
  {
    var f := Lookup(mem, d, i, j);
    TranslationIsLedger(c, mem, owner, d, i, j, c.start);
    TranslationIsLedger(c, mem, owner, d, i, j, f);
    TranslationIsLedger(c, mem, owner, d', i', j', f);
  }

  /** Every directory starts with the shared entries, then nothing up to the private half. */
  lemma SharedHalf(c: Config, mem: Memory, owner: Ledger, d: int, i: int)
    requires Sound(c, mem, owner) && In(c, d) && owner[d] == Dir && 0 <= i < 512
    ensures mem[d][i] == if i < |c.low| then c.low[i] else 0
  {
    assert FrameOk(c, mem, owner, d);
  }

  /** The access bits of an entry: present, writable, user. */
  function Access(e: int): int { e % 4096 }

  /** A mapped private page can be read and written by the user; an APIC page maps itself, for the kernel only. */
  lemma PageAccess(c: Config, mem: Memory, owner: Ledger, d: int, i: int, j: int)
    requires Sound(c, mem, owner) && In(c, d) && owner[d] == Dir && PRIVATE <= i < WORDS && 0 <= j < WORDS
    requires Lookup(mem, d, i, j) != -1
    ensures Access(mem[d][i]) == 7 && In(c, Target(mem[d][i]))
    ensures var e := mem[Target(mem[d][i])][j];
            if Special(c, i, j) then Access(e) == 3 && Lookup(mem, d, i, j) == 1024 * i + j else Access(e) == 7
  {
    assert DirEntryOk(c, mem, owner, d, i);
    assert TableEntryOk(c, mem, owner, Target(mem[d][i]), j);
    EntryBits(Target(mem[d][i]), 7);
    EntryBits(PageNo(i, j), 3);
  }

  /** How an address names a page: directory index, table index and offset make it up, and the special addresses are
      those below the private half and the two APIC pages. */
  lemma AddressSplits(c: Config, va: int)
    requires ConfigOk(c) && 0 <= va < 0x1_0000_0000
    ensures var i, j := va / 0x40_0000, va / 0x1000 % 0x400;
            && 0 <= i < WORDS && 0 <= j < WORDS && va == 0x40_0000 * i + 0x1000 * j + va % 0x1000
            && (va % 0x1000 == 0 ==>
                  (Special(c, i, j) <==> va < 0x8000_0000 || va == 0x1000 * c.io || va == 0x1000 * c.local))
  {
  }

  lemma EntryBits(f: int, bits: int)
    requires bits == 3 || bits == 7
    ensures Present(Entry(f, bits)) && Target(Entry(f, bits)) == f && Entry(f, bits) != 0
  {
    var half := if bits == 3 then 1 else 3;
    assert Entry(f, bits) == 2 * (2048 * f + half) + 1;
  }
}

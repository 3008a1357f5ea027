/** The two moves of the allocator on the block structure: carving a block out of a free
    one, and merging a freed block with its free neighbours. */
module HeapMoves {
  import opened HeapSpec

  // ---------------------------------------------------------------- allocation

  /** Block structure after `n` words were carved out of free block `h`. */
  function AllocTags(tags: Tags, h: int, n: int): Tags
    requires h in tags
  {
    if tags[h] - n >= 4 then tags[h := -n][h + n := tags[h] - n] else tags[h := -tags[h]]
  }

  lemma AllocBlock(tags: Tags, len: int, h: int, n: int, x: int)
    requires Tiling(tags, len) && h in tags && 4 <= n <= tags[h] && x in AllocTags(tags, h, n)
    ensures BlockOk(AllocTags(tags, h, n), len, x)
  {
    assert BlockOk(tags, len, h);
    if x in tags { assert BlockOk(tags, len, x); }
  }

  lemma AllocApart(tags: Tags, len: int, h: int, n: int, x: int, y: int)
    requires Tiling(tags, len) && h in tags && 4 <= n <= tags[h]
    requires x in AllocTags(tags, h, n) && y in AllocTags(tags, h, n) && x != y
    ensures Apart(AllocTags(tags, h, n), x, y)
  {
    var x0, y0 := if x in tags then x else h, if y in tags then y else h;
    if x0 != y0 { assert Apart(tags, x0, y0); }
    if x != h && x in tags { assert Apart(tags, x, h); }
    if y != h && y in tags { assert Apart(tags, y, h); }
    assert BlockOk(tags, len, h) && BlockOk(tags, len, x0) && BlockOk(tags, len, y0);
  }

  lemma AllocRightTaken(tags: Tags, len: int, h: int, n: int, x: int)
    requires Tiling(tags, len) && NoAdjacentFree(tags) && h in tags && 4 <= n <= tags[h]
    requires x in AllocTags(tags, h, n)
    ensures RightTaken(AllocTags(tags, h, n), x)
  {
    assert RightTaken(tags, h) && BlockOk(tags, len, h);
    if x in tags && x != h {
      assert RightTaken(tags, x) && BlockOk(tags, len, x) && Apart(tags, x, h);
    }
  }

  /** Carving keeps the tiling and never leaves two free blocks side by side. */
  lemma AllocTiles(tags: Tags, len: int, h: int, n: int)
    requires Tiling(tags, len) && h in tags && 4 <= n <= tags[h]
    ensures Tiling(AllocTags(tags, h, n), len)
    ensures NoAdjacentFree(tags) ==> NoAdjacentFree(AllocTags(tags, h, n))
  {
    var tags' := AllocTags(tags, h, n);
    assert BlockOk(tags, len, h) && Apart(tags, h, len - 2);
    forall x | x in tags' ensures BlockOk(tags', len, x) { AllocBlock(tags, len, h, n, x); }
    forall x, y | x in tags' && y in tags' && x != y ensures Apart(tags', x, y) {
      AllocApart(tags, len, h, n, x, y);
    }
    if NoAdjacentFree(tags) {
      forall x | x in tags' ensures RightTaken(tags', x) { AllocRightTaken(tags, len, h, n, x); }
    }
  }

  /** Blocks off the list after `makeTaken`: the split-off remainder, if there is one. */
  function Remainder(tags: Tags, h: int, n: int): set<int>
    requires h in tags
  {
    if tags[h] - n >= 4 then {h + n} else {}
  }

  function Granted(tags: Tags, h: int, n: int): int
    requires h in tags
  {
    if tags[h] - n >= 4 then n else tags[h]
  }

  lemma TakeKeepsBlock(mem: seq<int>, avail: int, tags: Tags, order: seq<int>, h: int, n: int, x: int)
    requires Partial(mem, avail, tags, order, {h}) && h in tags && 4 <= n <= tags[h] && x in AllocTags(tags, h, n)
    requires 0 <= h && h + tags[h] <= |mem|
    ensures x !in Remainder(tags, h, n) ==> TagOk(TakeMem(mem, h, Granted(tags, h, n)), AllocTags(tags, h, n), x)
    ensures x in tags && x != h ==> WordsKept(mem, TakeMem(mem, h, Granted(tags, h, n)), x, Abs(tags[x]))
  {
    if x in tags && x != h {
      assert TagOk(mem, tags, x);
      assert Apart(tags, x, h);
      assert BlockOk(tags, |mem|, x);
      assert BlockOk(tags, |mem|, h);
    }
  }

  lemma TakeKeepsLink(mem: seq<int>, avail: int, tags: Tags, order: seq<int>, h: int, n: int, j: int)
    requires Partial(mem, avail, tags, order, {h}) && h in tags && 4 <= n <= tags[h]
    requires 0 <= h && h + tags[h] <= |mem| && 0 <= j < |order|
    ensures LinkOk(TakeMem(mem, h, Granted(tags, h, n)), order, j)
  {
    assert LinkOk(mem, order, j);
    ListedApart(tags, |mem|, order, {h}, j, h);
  }

  lemma AllocListed(tags: Tags, len: int, order: seq<int>, h: int, n: int)
    requires Tiling(tags, len) && Listed(tags, order, {h}) && h in tags && 4 <= n <= tags[h]
    ensures Listed(AllocTags(tags, h, n), order, Remainder(tags, h, n))
  {
    var tags' := AllocTags(tags, h, n);
    assert BlockOk(tags, len, h);
    forall k | 0 <= k < |order| ensures FreeAt(tags', order, Remainder(tags, h, n), k) {
      assert FreeAt(tags, order, {h}, k);
      assert Apart(tags, order[k], h) && BlockOk(tags, len, order[k]);
    }
    forall x | x in tags' && tags'[x] > 0 && x !in Remainder(tags, h, n) ensures InList(order, x) {
    }
  }

  /** `makeTaken` on an unlinked free block: everything else stays in place. */
  lemma TakeKeeps(mem: seq<int>, avail: int, tags: Tags, order: seq<int>, h: int, n: int)
    requires Partial(mem, avail, tags, order, {h}) && h in tags && 4 <= n <= tags[h]
    ensures 0 < h && h + tags[h] <= |mem|
    ensures Partial(TakeMem(mem, h, Granted(tags, h, n)), avail, AllocTags(tags, h, n), order, Remainder(tags, h, n))
    ensures LiveKept(mem, TakeMem(mem, h, Granted(tags, h, n)), tags, {})
  {
    assert BlockOk(tags, |mem|, h);
    var mem', tags' := TakeMem(mem, h, Granted(tags, h, n)), AllocTags(tags, h, n);
    AllocTiles(tags, |mem|, h, n);
    AllocListed(tags, |mem|, order, h, n);
    forall j | 0 <= j < |order| ensures LinkOk(mem', order, j) {
      TakeKeepsLink(mem, avail, tags, order, h, n, j);
    }
    forall x | x in tags'
      ensures x !in Remainder(tags, h, n) ==> TagOk(mem', tags', x)
      ensures x in tags && x != h ==> WordsKept(mem, mem', x, Abs(tags[x]))
    {
      TakeKeepsBlock(mem, avail, tags, order, h, n, x);
    }
    forall x | x in tags && tags[x] < 0 ensures WordsKept(mem, mem', x, Abs(tags[x])) {
      assert x in tags';
    }
  }

  // ---------------------------------------------------------------- release

  /** `g` is the left neighbour of `h`. */
  ghost predicate LeftOf(tags: Tags, g: int, h: int) {
    g in tags && h in tags && g < h && g + Abs(tags[g]) == h
  }

  function RightOf(tags: Tags, h: int): int
    requires h in tags
  {
    h + Abs(tags[h])
  }

  predicate IsFree(tags: Tags, h: int) { h in tags && tags[h] > 0 }

  function MergeStart(tags: Tags, g: int, h: int): int {
    if IsFree(tags, g) then g else h
  }

  /** Headers that vanish into the merged block or move off the list. */
  function Absorbed(tags: Tags, h: int): set<int>
    requires h in tags
  {
    {h} + if IsFree(tags, RightOf(tags, h)) then {RightOf(tags, h)} else {}
  }

  function MergeSize(tags: Tags, g: int, h: int): int
    requires h in tags
  {
    var r := RightOf(tags, h);
    Abs(tags[h]) + (if IsFree(tags, g) then tags[g] else 0) + (if IsFree(tags, r) then tags[r] else 0)
  }

  /** Block structure after taken block `h` with left neighbour `g` was freed. */
  function ReleaseTags(tags: Tags, g: int, h: int): Tags
    requires h in tags
  {
    (tags - Absorbed(tags, h))[MergeStart(tags, g, h) := MergeSize(tags, g, h)]
  }

  /** A live block: taken, and not one of the two sentinels. */
  predicate Live(tags: Tags, len: int, h: int) {
    h in tags && tags[h] < 0 && h != 0 && h != len - 2
  }

  /** The merged region is exactly the words of the blocks it replaces. */
  lemma MergeFacts(tags: Tags, len: int, g: int, h: int)
    requires Tiling(tags, len) && LeftOf(tags, g, h) && Live(tags, len, h)
    ensures 0 < MergeStart(tags, g, h) && 4 <= MergeSize(tags, g, h)
    ensures MergeStart(tags, g, h) + MergeSize(tags, g, h) <= len - 2
    ensures var r := RightOf(tags, h);
            && r in tags && g < h < r
            && MergeStart(tags, g, h) + MergeSize(tags, g, h) == (if IsFree(tags, r) then r + tags[r] else r)
    ensures MergeStart(tags, g, h) + MergeSize(tags, g, h) in tags
  {
    var r := RightOf(tags, h);
    assert BlockOk(tags, len, g) && BlockOk(tags, len, h) && BlockOk(tags, len, r) && BlockOk(tags, len, len - 2);
    if r != len - 2 { assert Apart(tags, r, len - 2); }
  }

  /** Every old block is inside the merged region or wholly outside it. */
  lemma MergeApart(tags: Tags, len: int, g: int, h: int, x: int)
    requires Tiling(tags, len) && LeftOf(tags, g, h) && Live(tags, len, h) && x in tags
    ensures var s := MergeStart(tags, g, h);
            var e := s + MergeSize(tags, g, h);
            && (x in Absorbed(tags, h) || x == s || x + Abs(tags[x]) <= s || e <= x)
            && (x in Absorbed(tags, h) ==> s <= x < e)
  {
    MergeFacts(tags, len, g, h);
    var r := RightOf(tags, h);
    assert BlockOk(tags, len, x) && BlockOk(tags, len, g) && BlockOk(tags, len, r) && BlockOk(tags, len, h);
    if x != g { assert Apart(tags, x, g); }
    if x != h { assert Apart(tags, x, h); }
    if x != r { assert Apart(tags, x, r); }
  }

  lemma ReleaseBlock(tags: Tags, len: int, g: int, h: int, x: int)
    requires Tiling(tags, len) && LeftOf(tags, g, h) && Live(tags, len, h) && x in ReleaseTags(tags, g, h)
    ensures BlockOk(ReleaseTags(tags, g, h), len, x)
  {
    MergeFacts(tags, len, g, h);
    var s, tags' := MergeStart(tags, g, h), ReleaseTags(tags, g, h);
    var e := s + MergeSize(tags, g, h);
    if x == s {
      MergeApart(tags, len, g, h, e);
    } else {
      assert BlockOk(tags, len, x);
      MergeApart(tags, len, g, h, x);
      if x != len - 2 { MergeApart(tags, len, g, h, x + Abs(tags[x])); }
    }
  }

  lemma ReleaseApart(tags: Tags, len: int, g: int, h: int, x: int, y: int)
    requires Tiling(tags, len) && LeftOf(tags, g, h) && Live(tags, len, h)
    requires x in ReleaseTags(tags, g, h) && y in ReleaseTags(tags, g, h) && x != y
    ensures Apart(ReleaseTags(tags, g, h), x, y)
  {
    var s := MergeStart(tags, g, h);
    if x != s { MergeApart(tags, len, g, h, x); }
    if y != s { MergeApart(tags, len, g, h, y); }
    if x != s && y != s { assert Apart(tags, x, y); }
  }

  lemma ReleaseRightTaken(tags: Tags, len: int, g: int, h: int, x: int)
    requires Tiling(tags, len) && NoAdjacentFree(tags) && LeftOf(tags, g, h) && Live(tags, len, h)
    requires x in ReleaseTags(tags, g, h)
    ensures RightTaken(ReleaseTags(tags, g, h), x)
  {
    MergeFacts(tags, len, g, h);
    var r := RightOf(tags, h);
    var s := MergeStart(tags, g, h);
    assert RightTaken(tags, r);
    if x != s {
      assert RightTaken(tags, x);
      assert BlockOk(tags, len, x);
      // The only block ending where the merged one starts is its left neighbour.
      assert BlockOk(tags, len, g) && (x == g || Apart(tags, x, g));
      MergeApart(tags, len, g, h, x);
      if x != len - 2 { MergeApart(tags, len, g, h, x + Abs(tags[x])); }
    } else {
      assert BlockOk(tags, len, r);
      MergeApart(tags, len, g, h, s + MergeSize(tags, g, h));
    }
  }

  /** Merging with both free neighbours keeps the tiling and restores full coalescing. */
  lemma ReleaseTiles(tags: Tags, len: int, g: int, h: int)
    requires Tiling(tags, len) && LeftOf(tags, g, h) && Live(tags, len, h)
    ensures Tiling(ReleaseTags(tags, g, h), len)
    ensures NoAdjacentFree(tags) ==> NoAdjacentFree(ReleaseTags(tags, g, h))
  {
    var tags' := ReleaseTags(tags, g, h);
    MergeFacts(tags, len, g, h);
    MergeApart(tags, len, g, h, 0);
    MergeApart(tags, len, g, h, len - 2);
    forall x | x in tags' ensures BlockOk(tags', len, x) { ReleaseBlock(tags, len, g, h, x); }
    forall x, y | x in tags' && y in tags' && x != y ensures Apart(tags', x, y) {
      ReleaseApart(tags, len, g, h, x, y);
    }
    if NoAdjacentFree(tags) {
      forall x | x in tags' ensures RightTaken(tags', x) { ReleaseRightTaken(tags, len, g, h, x); }
    }
  }

  /** Neighbours taken off the list before the merge. */
  function Unlisted(tags: Tags, g: int, h: int): set<int>
    requires h in tags
  {
    (if IsFree(tags, g) then {g} else {}) +
    (if IsFree(tags, RightOf(tags, h)) then {RightOf(tags, h)} else {})
  }

  /** With the free neighbours unlinked, the words already describe the merged structure up to the merged block. */
  lemma ReleaseKeeps(mem: seq<int>, avail: int, tags: Tags, order: seq<int>, g: int, h: int)
    requires LeftOf(tags, g, h) && Live(tags, |mem|, h) && Partial(mem, avail, tags, order, Unlisted(tags, g, h))
    ensures Partial(mem, avail, ReleaseTags(tags, g, h), order, {MergeStart(tags, g, h)})
  {
    ReleaseTiles(tags, |mem|, g, h);
    var tags', s := ReleaseTags(tags, g, h), MergeStart(tags, g, h);
    forall x | x in tags' && x != s ensures TagOk(mem, tags', x) {
      assert TagOk(mem, tags, x);
    }
    forall k | 0 <= k < |order| ensures FreeAt(tags', order, {s}, k) {
      assert FreeAt(tags, order, Unlisted(tags, g, h), k);
    }
    forall x | x in tags' && tags'[x] > 0 && x != s ensures InList(order, x) {
    }
  }

  // ---------------------------------------------------------------- consequences

  /** Walking right from the left sentinel reaches every header: the neighbour to the left exists. */
  lemma LeftNeighbour(tags: Tags, len: int, h: int) returns (g: int)
    requires Tiling(tags, len) && h in tags && h != 0
    ensures LeftOf(tags, g, h)
  {
    assert BlockOk(tags, len, h);
    g := 0;
    while g + Abs(tags[g]) != h
      invariant g in tags && g < h
      decreases h - g
    {
      assert Apart(tags, g, h) && BlockOk(tags, len, g) && BlockOk(tags, len, len - 2);
      g := g + Abs(tags[g]);
      assert BlockOk(tags, len, g);
    }
    assert BlockOk(tags, len, g);
  }

  /** Every word belongs to exactly one block. */
  lemma WordInOneBlock(tags: Tags, len: int, i: int) returns (g: int)
    requires Tiling(tags, len) && 0 <= i < len
    ensures g in tags && g <= i < g + Abs(tags[g])
    ensures forall x {:trigger x in tags} :: x in tags && x <= i < x + Abs(tags[x]) ==> x == g
  {
    g := 0;
    while g + Abs(tags[g]) <= i
      invariant g in tags && g <= i
      decreases i - g
    {
      assert BlockOk(tags, len, g);
      g := g + Abs(tags[g]);
      assert BlockOk(tags, len, g);
    }
    forall x | x in tags && x <= i < x + Abs(tags[x]) ensures x == g {
      assert x == g || Apart(tags, x, g);
    }
  }

  /** Once nothing is live, one free block fills the whole space between the sentinels. */
  lemma AllFreeIsOneBlock(tags: Tags, len: int)
    requires Tiling(tags, len) && NoAdjacentFree(tags)
    requires forall h :: h in tags ==> !Live(tags, len, h)
    ensures tags == map[0 := -2, 2 := len - 4, len - 2 := -2]
  {
    assert BlockOk(tags, len, 0);
    assert 2 in tags && !Live(tags, len, 2) && BlockOk(tags, len, 2) && RightTaken(tags, 2);
    var e := 2 + tags[2];
    assert e in tags && !Live(tags, len, e) && BlockOk(tags, len, e);
    assert e == len - 2;
    forall x | x in tags ensures x in {0, 2, len - 2} {
      assert BlockOk(tags, len, x);
      if x != 0 { assert Apart(tags, x, 0); }
      if x != 2 { assert Apart(tags, x, 2); }
      if x != len - 2 { assert Apart(tags, x, len - 2); }
    }
  }

  lemma LiveKeptTrans(m0: seq<int>, m1: seq<int>, m2: seq<int>, tags: Tags, tags': Tags, except: set<int>)
    requires LiveKept(m0, m1, tags, except) && LiveKept(m1, m2, tags', {})
    requires forall h {:trigger h in tags'} :: h in tags && tags[h] < 0 && h !in except ==>
               h in tags' && tags'[h] == tags[h]
    ensures LiveKept(m0, m2, tags, except)
  {
    forall h | h in tags && h !in except && tags[h] < 0 ensures WordsKept(m0, m2, h, Abs(tags[h])) {
      assert h in tags';
      assert WordsKept(m0, m1, h, Abs(tags[h])) && WordsKept(m1, m2, h, Abs(tags'[h]));
    }
  }
}

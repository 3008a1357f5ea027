/** The boundary-tag heap, as values: what the words of the array mean, and what each
    primitive of the allocator does to them.

    `tags` maps the header index of every block to its signed tag (positive = free,
    negative = taken, magnitude = words in the block, header and footer included).
    `order` is the free list from `avail`. */
module HeapSpec {
  import opened Lists

  type Tags = map<int, int>

  function Abs(x: int): int { if x < 0 then -x else x }

  /** A block with its neighbour: in range, big enough, and followed by another header. */
  ghost predicate BlockOk(tags: Tags, len: int, h: int)
    requires h in tags
  {
    && 0 <= h && h + Abs(tags[h]) <= len
    && (h == 0 || h == len - 2 || 4 <= Abs(tags[h]))
    && (h == len - 2 || h + Abs(tags[h]) in tags)
  }

  /** Two blocks share no word. */
  ghost predicate Apart(tags: Tags, h: int, g: int)
    requires h in tags && g in tags
  {
    h + Abs(tags[h]) <= g || g + Abs(tags[g]) <= h
  }

  /** The blocks tile [0, len) from the left sentinel to the right one. */
  ghost predicate Tiling(tags: Tags, len: int) {
    && 8 <= len
    && 0 in tags && tags[0] == -2
    && len - 2 in tags && tags[len - 2] == -2
    && (forall h {:trigger BlockOk(tags, len, h)} :: h in tags ==> BlockOk(tags, len, h))
    && (forall h, g {:trigger Apart(tags, h, g)} :: h in tags && g in tags && h != g ==> Apart(tags, h, g))
  }

  ghost predicate RightTaken(tags: Tags, h: int)
    requires h in tags
  {
    tags[h] > 0 && h + tags[h] in tags ==> tags[h + tags[h]] < 0
  }

  ghost predicate NoAdjacentFree(tags: Tags) {
    forall h {:trigger RightTaken(tags, h)} :: h in tags ==> RightTaken(tags, h)
  }

  /** Header and footer of a block both hold its tag. */
  ghost predicate TagOk(mem: seq<int>, tags: Tags, h: int)
    requires h in tags
  {
    && 0 <= h && 1 <= Abs(tags[h]) && h + Abs(tags[h]) <= |mem|
    && mem[h] == tags[h] && mem[h + Abs(tags[h]) - 1] == tags[h]
  }

  ghost predicate Tagged(mem: seq<int>, tags: Tags, omit: set<int>) {
    forall h {:trigger TagOk(mem, tags, h)} :: h in tags && h !in omit ==> TagOk(mem, tags, h)
  }

  /** The k-th header of the list, or the null index 0 outside it. */
  function At(order: seq<int>, k: int): int { if 0 <= k < |order| then order[k] else 0 }

  ghost predicate LinkOk(mem: seq<int>, order: seq<int>, k: int)
    requires 0 <= k < |order|
  {
    && 0 < order[k] && order[k] + 2 < |mem|
    && mem[order[k] + 1] == At(order, k + 1)
    && mem[order[k] + 2] == At(order, k - 1)
  }

  /** `order` is the doubly linked list that starts at `avail`. */
  ghost predicate Links(mem: seq<int>, avail: int, order: seq<int>) {
    && avail == At(order, 0)
    && (forall k {:trigger LinkOk(mem, order, k)} :: 0 <= k < |order| ==> LinkOk(mem, order, k))
    && (forall j, k {:trigger Differ(order, j, k)} :: 0 <= j < k < |order| ==> Differ(order, j, k))
  }

  /** The list holds exactly the free headers, apart from `omit`. */
  ghost predicate Listed(tags: Tags, order: seq<int>, omit: set<int>) {
    && (forall k {:trigger FreeAt(tags, order, omit, k)} :: 0 <= k < |order| ==> FreeAt(tags, order, omit, k))
    && (forall h {:trigger InList(order, h)} :: h in tags && tags[h] > 0 && h !in omit ==> InList(order, h))
  }

  ghost predicate FreeAt(tags: Tags, order: seq<int>, omit: set<int>, k: int)
    requires 0 <= k < |order|
  {
    order[k] in tags && tags[order[k]] > 0 && order[k] !in omit
  }

  ghost predicate InList(order: seq<int>, h: int) { h in order }

  /** The state in the middle of an operation: blocks in `omit` are off the list, their words unconstrained. */
  ghost predicate Partial(mem: seq<int>, avail: int, tags: Tags, order: seq<int>, omit: set<int>) {
    && Tiling(tags, |mem|)
    && Tagged(mem, tags, omit)
    && Links(mem, avail, order)
    && Listed(tags, order, omit)
  }

  /** The heap invariant between operations. */
  ghost predicate Good(mem: seq<int>, avail: int, tags: Tags, order: seq<int>) {
    Partial(mem, avail, tags, order, {}) && NoAdjacentFree(tags)
  }

  // ---------------------------------------------------------------- primitives on words

  predicate LinkCell(mem: seq<int>, h: int) { h == 0 || (0 < h && h + 2 < |mem|) }

  predicate CanUnlink(mem: seq<int>, i: int) {
    0 <= i && i + 2 < |mem| && LinkCell(mem, mem[i + 1]) && LinkCell(mem, mem[i + 2])
  }

  function UnlinkMem(mem: seq<int>, i: int): seq<int>
    requires CanUnlink(mem, i)
  {
    var prev, next := mem[i + 2], mem[i + 1];
    var m := if prev == 0 then mem else mem[prev + 1 := next];
    if next == 0 then m else m[next + 2 := prev]
  }

  function UnlinkAvail(mem: seq<int>, avail: int, i: int): int
    requires 0 <= i && i + 2 < |mem|
  {
    if mem[i + 2] == 0 then mem[i + 1] else avail
  }

  function TakeMem(mem: seq<int>, i: int, n: int): seq<int>
    requires 0 <= i && 1 <= n && i + n <= |mem|
  {
    mem[i := -n][i + n - 1 := -n]
  }

  function PushMem(mem: seq<int>, avail: int, i: int, n: int): seq<int>
    requires 0 <= i && 4 <= n && i + n <= |mem| && LinkCell(mem, avail)
  {
    var m := mem[i := n][i + n - 1 := n][i + 1 := avail][i + 2 := 0];
    if avail == 0 then m else m[avail + 2 := i]
  }

  // ---------------------------------------------------------------- what every step keeps

  ghost predicate WordsKept(mem: seq<int>, mem': seq<int>, h: int, n: int) {
    |mem'| == |mem| && forall i :: 0 <= h <= i < h + n && i < |mem| ==> mem'[i] == mem[i]
  }

  /** No word of any taken block (its tags included) differs. */
  ghost predicate LiveKept(mem: seq<int>, mem': seq<int>, tags: Tags, except: set<int>) {
    && |mem'| == |mem|
    && forall h {:trigger WordsKept(mem, mem', h, Abs(tags[h]))} ::
         h in tags && h !in except && tags[h] < 0 ==> WordsKept(mem, mem', h, Abs(tags[h]))
  }

  ghost predicate TagKept(mem: seq<int>, mem': seq<int>, h: int, n: int) {
    && |mem'| == |mem|
    && (0 <= h && 1 <= n && h + n <= |mem| ==> mem'[h] == mem[h] && mem'[h + n - 1] == mem[h + n - 1])
  }

  ghost predicate TagsKept(mem: seq<int>, mem': seq<int>, tags: Tags) {
    forall h {:trigger TagKept(mem, mem', h, Abs(tags[h]))} :: h in tags ==> TagKept(mem, mem', h, Abs(tags[h]))
  }

  lemma UnlinkDefined(mem: seq<int>, avail: int, order: seq<int>, k: int)
    requires Links(mem, avail, order) && 0 <= k < |order|
    ensures 0 < order[k] && CanUnlink(mem, order[k])
    ensures mem[order[k] + 1] == At(order, k + 1) && mem[order[k] + 2] == At(order, k - 1)
    ensures k + 1 < |order| ==> 0 < order[k + 1] && order[k + 1] + 2 < |mem|
    ensures 0 < k ==> 0 < order[k - 1] && order[k - 1] + 2 < |mem|
  {
    assert LinkOk(mem, order, k);
    if k + 1 < |order| { assert LinkOk(mem, order, k + 1); }
    if 0 < k { assert LinkOk(mem, order, k - 1); }
  }

  /** Unlinking rewrites only the `next` word of the list predecessor and the `prev` word of the successor. */
  lemma UnlinkTouches(mem: seq<int>, avail: int, order: seq<int>, k: int)
    requires Links(mem, avail, order) && 0 <= k < |order| && CanUnlink(mem, order[k])
    ensures |UnlinkMem(mem, order[k])| == |mem|
    ensures forall i {:trigger UnlinkMem(mem, order[k])[i]} :: 0 <= i < |mem| ==>
            UnlinkMem(mem, order[k])[i] ==
            if k + 1 < |order| && i == order[k + 1] + 2 then At(order, k - 1)
            else if 0 < k && i == order[k - 1] + 1 then At(order, k + 1)
            else mem[i]
  {
    UnlinkDefined(mem, avail, order, k);
  }

  /** Two listed blocks sit apart: no link word of one is any word of the other. */
  lemma ListedApart(tags: Tags, len: int, order: seq<int>, omit: set<int>, k: int, h: int)
    requires Tiling(tags, len) && Listed(tags, order, omit) && 0 <= k < |order| && h in tags
    ensures order[k] in tags && tags[order[k]] > 0 && order[k] !in omit
    ensures 0 < order[k] && order[k] + 4 <= order[k] + tags[order[k]] <= len
    ensures 0 <= h && h + Abs(tags[h]) <= len && 2 <= Abs(tags[h]) && (tags[h] > 0 ==> 4 <= tags[h] && h != 0)
    ensures h != order[k] ==> h + Abs(tags[h]) <= order[k] || order[k] + tags[order[k]] <= h
  {
    assert FreeAt(tags, order, omit, k);
    assert BlockOk(tags, len, order[k]) && BlockOk(tags, len, h);
    if h != order[k] { assert Apart(tags, h, order[k]); }
  }

  lemma UnlinkKeepsLink(mem: seq<int>, avail: int, tags: Tags, order: seq<int>, omit: set<int>, k: int, j: int)
    requires Partial(mem, avail, tags, order, omit) && 0 <= k < |order| && CanUnlink(mem, order[k])
    requires 0 <= j < |order| - 1
    ensures LinkOk(UnlinkMem(mem, order[k]), Without(order, k), j)
  {
    UnlinkTouches(mem, avail, order, k);
    var j0 := if j < k then j else j + 1;
    assert LinkOk(mem, order, j0);
    assert FreeAt(tags, order, omit, j0);
    if 0 < k {
      ListedApart(tags, |mem|, order, omit, k - 1, order[j0]);
      if j0 < k - 1 { assert Differ(order, j0, k - 1); }
      if k - 1 < j0 { assert Differ(order, k - 1, j0); }
    }
    if k + 1 < |order| {
      ListedApart(tags, |mem|, order, omit, k + 1, order[j0]);
      if j0 < k + 1 { assert Differ(order, j0, k + 1); }
      if k + 1 < j0 { assert Differ(order, k + 1, j0); }
    }
  }

  lemma UnlinkKeepsBlock(mem: seq<int>, avail: int, tags: Tags, order: seq<int>, omit: set<int>, k: int, h: int)
    requires Partial(mem, avail, tags, order, omit) && 0 <= k < |order| && CanUnlink(mem, order[k]) && h in tags
    ensures TagKept(mem, UnlinkMem(mem, order[k]), h, Abs(tags[h]))
    ensures h !in omit ==> TagOk(UnlinkMem(mem, order[k]), tags, h)
    ensures tags[h] < 0 ==> WordsKept(mem, UnlinkMem(mem, order[k]), h, Abs(tags[h]))
  {
    UnlinkTouches(mem, avail, order, k);
    if h !in omit { assert TagOk(mem, tags, h); }
    if 0 < k { ListedApart(tags, |mem|, order, omit, k - 1, h); }
    if k + 1 < |order| { ListedApart(tags, |mem|, order, omit, k + 1, h); }
  }

  lemma WithoutListed(mem: seq<int>, avail: int, tags: Tags, order: seq<int>, omit: set<int>, k: int)
    requires Listed(tags, order, omit) && 0 <= k < |order| && Links(mem, avail, order)
    ensures Listed(tags, Without(order, k), omit + {order[k]})
    ensures forall i, j {:trigger Differ(Without(order, k), i, j)} ::
              0 <= i < j < |order| - 1 ==> Differ(Without(order, k), i, j)
  {
    var order' := Without(order, k);
    forall h | h in tags && tags[h] > 0 && h !in omit + {order[k]} ensures InList(order', h) {
      assert InList(order, h);
      var j :| 0 <= j < |order| && order[j] == h;
      assert order'[if j < k then j else j - 1] == h;
    }
    forall j | 0 <= j < |order'| ensures FreeAt(tags, order', omit + {order[k]}, j) {
      assert if j < k then Differ(order, j, k) else Differ(order, k, j + 1);
      assert FreeAt(tags, order, omit, if j < k then j else j + 1);
    }
    forall i, j | 0 <= i < j < |order'| ensures Differ(order', i, j) {
      assert Differ(order, if i < k then i else i + 1, if j < k then j else j + 1);
    }
  }

  /** `remove(i)`: the list loses exactly that block, every tag and every live word stays. */
  lemma UnlinkKeeps(mem: seq<int>, avail: int, tags: Tags, order: seq<int>, omit: set<int>, k: int)
    requires Partial(mem, avail, tags, order, omit) && 0 <= k < |order| && CanUnlink(mem, order[k])
    ensures Partial(UnlinkMem(mem, order[k]), UnlinkAvail(mem, avail, order[k]), tags, Without(order, k),
                    omit + {order[k]})
    ensures TagsKept(mem, UnlinkMem(mem, order[k]), tags)
    ensures LiveKept(mem, UnlinkMem(mem, order[k]), tags, {})
  {
    UnlinkDefined(mem, avail, order, k);
    UnlinkTouches(mem, avail, order, k);
    WithoutListed(mem, avail, tags, order, omit, k);
    forall j | 0 <= j < |order| - 1 ensures LinkOk(UnlinkMem(mem, order[k]), Without(order, k), j) {
      UnlinkKeepsLink(mem, avail, tags, order, omit, k, j);
    }
    forall h | h in tags
      ensures TagKept(mem, UnlinkMem(mem, order[k]), h, Abs(tags[h]))
      ensures h !in omit ==> TagOk(UnlinkMem(mem, order[k]), tags, h)
      ensures tags[h] < 0 ==> WordsKept(mem, UnlinkMem(mem, order[k]), h, Abs(tags[h]))
    {
      UnlinkKeepsBlock(mem, avail, tags, order, omit, k, h);
    }
  }

  lemma PushDefined(mem: seq<int>, avail: int, tags: Tags, order: seq<int>, b: int)
    requires Partial(mem, avail, tags, order, {b}) && b in tags && 4 <= tags[b]
    ensures 0 < b && LinkCell(mem, avail) && b + tags[b] <= |mem|
    ensures avail != 0 ==> 0 < |order| && avail == order[0] && avail in tags && tags[avail] > 0 && avail != b
    ensures |PushMem(mem, avail, b, tags[b])| == |mem|
  {
    assert BlockOk(tags, |mem|, b);
    if 0 < |order| { assert LinkOk(mem, order, 0) && FreeAt(tags, order, {b}, 0); }
  }

  lemma PushKeepsLink(mem: seq<int>, avail: int, tags: Tags, order: seq<int>, b: int, j: int)
    requires Partial(mem, avail, tags, order, {b}) && b in tags && 4 <= tags[b]
    requires 0 < b && LinkCell(mem, avail) && b + tags[b] <= |mem|
    requires 0 <= j <= |order|
    ensures LinkOk(PushMem(mem, avail, b, tags[b]), [b] + order, j)
  {
    PushDefined(mem, avail, tags, order, b);
    if 0 < |order| { ListedApart(tags, |mem|, order, {b}, 0, b); }
    if 0 < j {
      assert LinkOk(mem, order, j - 1);
      ListedApart(tags, |mem|, order, {b}, j - 1, b);
      ListedApart(tags, |mem|, order, {b}, 0, order[j - 1]);
      if 0 < j - 1 { assert Differ(order, 0, j - 1); }
    }
  }

  lemma PushKeepsBlock(mem: seq<int>, avail: int, tags: Tags, order: seq<int>, b: int, h: int)
    requires Partial(mem, avail, tags, order, {b}) && b in tags && 4 <= tags[b] && h in tags
    requires 0 < b && LinkCell(mem, avail) && b + tags[b] <= |mem|
    ensures TagOk(PushMem(mem, avail, b, tags[b]), tags, h)
    ensures tags[h] < 0 ==> WordsKept(mem, PushMem(mem, avail, b, tags[b]), h, Abs(tags[h]))
  {
    PushDefined(mem, avail, tags, order, b);
    if avail != 0 { ListedApart(tags, |mem|, order, {b}, 0, h); ListedApart(tags, |mem|, order, {b}, 0, b); }
    if h != b {
      assert TagOk(mem, tags, h);
      assert BlockOk(tags, |mem|, h);
      assert Apart(tags, h, b);
    }
  }

  /** `makeAvail(b, n)` on a block recorded in `tags` completes a partial heap; no live word changes. */
  lemma PushKeeps(mem: seq<int>, avail: int, tags: Tags, order: seq<int>, b: int)
    requires Partial(mem, avail, tags, order, {b}) && b in tags && 4 <= tags[b]
    ensures 0 < b && LinkCell(mem, avail) && b + tags[b] <= |mem|
    ensures Partial(PushMem(mem, avail, b, tags[b]), b, tags, [b] + order, {})
    ensures LiveKept(mem, PushMem(mem, avail, b, tags[b]), tags, {})
  {
    PushDefined(mem, avail, tags, order, b);
    var mem', order' := PushMem(mem, avail, b, tags[b]), [b] + order;
    forall j | 0 <= j < |order'| ensures LinkOk(mem', order', j) {
      PushKeepsLink(mem, avail, tags, order, b, j);
    }
    forall h | h in tags
      ensures TagOk(mem', tags, h)
      ensures tags[h] < 0 ==> WordsKept(mem, mem', h, Abs(tags[h]))
    {
      PushKeepsBlock(mem, avail, tags, order, b, h);
    }
    PushListed(mem, avail, tags, order, b);
  }

  lemma PushListed(mem: seq<int>, avail: int, tags: Tags, order: seq<int>, b: int)
    requires Links(mem, avail, order) && Listed(tags, order, {b}) && b in tags && tags[b] > 0
    ensures Listed(tags, [b] + order, {})
    ensures forall i, j {:trigger Differ([b] + order, i, j)} :: 0 <= i < j <= |order| ==> Differ([b] + order, i, j)
  {
    var order' := [b] + order;
    forall j | 0 <= j < |order'| ensures FreeAt(tags, order', {}, j) {
      assert 0 < j ==> FreeAt(tags, order, {b}, j - 1);
    }
    assert order'[0] == b;
    forall h | h in tags && tags[h] > 0 ensures InList(order', h) {
      assert h != b ==> InList(order, h);
    }
    forall i, j | 0 <= i < j < |order'| ensures Differ(order', i, j) {
      assert FreeAt(tags, order, {b}, j - 1);
      assert 0 < i ==> Differ(order, i - 1, j - 1);
    }
  }
}

/** Which free block a request gets: the candidates in list order, and 32-bit rounding. */
module HeapSearch {
  import opened HeapSpec
  import opened HeapMoves
  import opened Bytes

  const MAX_BLOCK: int := 0x7FFF_FFFF
  const CANDIDATES: int := 20

  /** Words asked for, header and footer included; the byte count is rounded up in 32-bit arithmetic. */
  function IntsFor(bytes: int): int
    requires 0 <= bytes < WORD_MAX
  {
    var ints := ((bytes + 3) % WORD_MAX) / 4 + 2;
    if ints < 4 then 4 else ints
  }

  /** The free blocks of the list that are large enough, in list order. */
  function Fitting(order: seq<int>, tags: Tags, n: int): seq<int> {
    if order == [] then []
    else
      var last := order[|order| - 1];
      Fitting(order[..|order| - 1], tags, n) + if last in tags && tags[last] >= n then [last] else []
  }

  lemma {:induction false} FittingIsFilter(order: seq<int>, tags: Tags, n: int, h: int)
    ensures h in Fitting(order, tags, n) <==> h in order && h in tags && tags[h] >= n
    ensures |Fitting(order, tags, n)| <= |order|
  {
    if order != [] {
      FittingIsFilter(order[..|order| - 1], tags, n, h);
      assert order == order[..|order| - 1] + [order[|order| - 1]];
    }
  }

  lemma {:induction false} FittingPrefix(order: seq<int>, tags: Tags, n: int, k: int)
    requires 0 <= k <= |order|
    ensures Fitting(order[..k], tags, n) <= Fitting(order, tags, n)
    decreases |order|
  {
    if k == |order| {
      assert order[..k] == order;
    } else {
      FittingPrefix(order[..|order| - 1], tags, n, k);
      assert order[..|order| - 1][..k] == order[..k];
    }
  }

  /** The first twenty fitting blocks: all the kernel looks at. */
  function Candidates(order: seq<int>, tags: Tags, n: int): seq<int> {
    var f := Fitting(order, tags, n);
    if |f| <= CANDIDATES then f else f[..CANDIDATES]
  }

  lemma SeenIsCandidates(order: seq<int>, tags: Tags, n: int, k: int)
    requires 0 <= k <= |order|
    requires |Fitting(order[..k], tags, n)| <= CANDIDATES
    requires k == |order| || |Fitting(order[..k], tags, n)| == CANDIDATES
    ensures Fitting(order[..k], tags, n) == Candidates(order, tags, n)
  {
    FittingPrefix(order, tags, n, k);
    assert order[..|order|] == order;
  }

  lemma SeenIsFirst(order: seq<int>, tags: Tags, n: int, k: int)
    requires 0 <= k <= |order| && Fitting(order[..k], tags, n) == []
    ensures k == |order| ==> Fitting(order, tags, n) == []
    ensures k < |order| && order[k] in tags && tags[order[k]] >= n ==>
              Fitting(order, tags, n) != [] && Fitting(order, tags, n)[0] == order[k]
  {
    if k == |order| {
      assert order[..k] == order;
    } else {
      FittingPrefix(order, tags, n, k + 1);
      assert order[..k + 1][..k] == order[..k];
    }
  }

  /** `it` is the first of the smallest blocks in `cands`. */
  ghost predicate FirstSmallest(cands: seq<int>, tags: Tags, it: int) {
    && it in tags
    && exists m :: Smallest(cands, tags, it, m)
  }

  ghost predicate Smallest(cands: seq<int>, tags: Tags, it: int, m: int)
    requires it in tags
  {
    && 0 <= m < |cands| && cands[m] == it
    && forall j :: 0 <= j < |cands| && cands[j] in tags ==>
         tags[it] <= tags[cands[j]] && (j < m ==> tags[it] < tags[cands[j]])
  }

  lemma FirstSmallestExtends(cands: seq<int>, tags: Tags, it: int, h: int)
    requires FirstSmallest(cands, tags, it) && h in tags
    ensures tags[it] <= tags[h] ==> FirstSmallest(cands + [h], tags, it)
    ensures tags[h] < tags[it] ==> FirstSmallest(cands + [h], tags, h)
  {
    var m :| Smallest(cands, tags, it, m);
    if tags[it] <= tags[h] {
      assert Smallest(cands + [h], tags, it, m);
    } else {
      assert Smallest(cands + [h], tags, h, |cands|);
    }
  }

  lemma FirstIsSmallest(cands: seq<int>, tags: Tags, h: int)
    requires cands == [] && h in tags
    ensures FirstSmallest(cands + [h], tags, h)
  {
    assert Smallest(cands + [h], tags, h, 0);
  }

  /** The best block of those seen so far, and its size; 0 and the largest size when none was seen. */
  ghost predicate Leads(seen: seq<int>, tags: Tags, ints: int, it: int, mx: int) {
    if |seen| == 0 then it == 0 && mx == MAX_BLOCK
    else it != 0 && FirstSmallest(seen, tags, it) && mx == tags[it] && ints <= mx
  }

  lemma LeadsOn(seen: seq<int>, tags: Tags, ints: int, it: int, mx: int, p: int)
    requires Leads(seen, tags, ints, it, mx) && p in tags && p != 0 && ints <= tags[p] < MAX_BLOCK
    ensures if tags[p] < mx then Leads(seen + [p], tags, ints, p, tags[p]) else Leads(seen + [p], tags, ints, it, mx)
  {
    if |seen| == 0 { FirstIsSmallest(seen, tags, p); } else { FirstSmallestExtends(seen, tags, it, p); }
  }

  /** No free block is large enough. */
  ghost predicate NoneFits(tags: Tags, n: int) {
    forall h :: h in tags ==> tags[h] < n
  }

  /** A request fails for either allocator in exactly the same heaps: when no free block has room. */
  lemma BothFailTogether(mem: seq<int>, avail: int, tags: Tags, order: seq<int>, n: int)
    requires Good(mem, avail, tags, order) && 4 <= n
    ensures Candidates(order, tags, n) == [] <==> NoneFits(tags, n)
    ensures Fitting(order, tags, n) == [] <==> NoneFits(tags, n)
    ensures forall h :: h in Fitting(order, tags, n) ==> h in order && h in tags && n <= tags[h]
  {
    forall h ensures h in Fitting(order, tags, n) <==> h in order && h in tags && tags[h] >= n {
      FittingIsFilter(order, tags, n, h);
    }
    var f := Fitting(order, tags, n);
    if |f| > 0 {
      var h := f[0];
      assert h in f;
      assert h in tags && n <= tags[h];
    }
    if !NoneFits(tags, n) {
      var h :| h in tags && tags[h] >= n;
      assert InList(order, h);
      assert h in f;
    }
    assert Candidates(order, tags, n) == [] <==> f == [];
  }

  /** `tags'` is `tags` with a request of `bytes` bytes granted out of free block `h`. */
  ghost predicate Allocated(tags: Tags, tags': Tags, h: int, bytes: int)
    requires 0 <= bytes < WORD_MAX
  {
    h in tags && IntsFor(bytes) <= tags[h] && tags' == AllocTags(tags, h, IntsFor(bytes))
  }

  /** The granted payload holds the bytes asked for exactly when the 32-bit rounding did not wrap. */
  lemma GrantHoldsRequest(tags: Tags, tags': Tags, len: int, h: int, bytes: int)
    requires Tiling(tags, len) && 0 < bytes < WORD_MAX && Allocated(tags, tags', h, bytes)
    ensures Live(tags', len, h) && (bytes <= 4 * (Abs(tags'[h]) - 2) <==> bytes <= WORD_MAX - 4)
  {
  }

  /** A request that does not wrap asks for the least block that holds it, and never for fewer than four words. */
  lemma LeastRequest(bytes: int, n: int)
    requires 0 < bytes <= WORD_MAX - 4 && 4 <= n
    ensures IntsFor(bytes) <= n <==> bytes <= 4 * (n - 2)
  {
  }

  /** No free block has a payload of `bytes` bytes. */
  ghost predicate NoPayload(tags: Tags, bytes: int) {
    forall h :: h in tags && tags[h] > 0 ==> 4 * (tags[h] - 2) < bytes
  }

  /** Such a request fails exactly when no free block's payload holds it. */
  lemma FailsWhen(tags: Tags, len: int, bytes: int)
    requires Tiling(tags, len) && 0 < bytes <= WORD_MAX - 4
    ensures NoneFits(tags, IntsFor(bytes)) <==> NoPayload(tags, bytes)
  {
    forall h | h in tags && tags[h] > 0 ensures tags[h] < IntsFor(bytes) <==> 4 * (tags[h] - 2) < bytes {
      assert BlockOk(tags, len, h);
      LeastRequest(bytes, tags[h]);
    }
  }

  /** A grant takes at most three words more than asked for; otherwise exactly the rest stays free behind it. */
  lemma GrantIsTight(tags: Tags, len: int, h: int, n: int)
    requires Tiling(tags, len) && h in tags && 4 <= n <= tags[h]
    ensures var tags' := AllocTags(tags, h, n);
            && n <= -tags'[h] <= n + 3
            && (tags'[h] == -tags[h] || (h + n in tags' && tags'[h + n] == tags[h] - n >= 4))
  {
  }

  /** The kernel looks at twenty fitting blocks, or at all of them if there are fewer. */
  lemma TwentyCandidates(order: seq<int>, tags: Tags, n: int)
    ensures var f, c := Fitting(order, tags, n), Candidates(order, tags, n);
            c <= f && |c| == if |f| < 20 then |f| else 20
  {
  }

  /** Above the bound a request, when granted, gets a payload of two to five words. */
  lemma WrappedRequest(tags: Tags, h: int, bytes: int)
    requires WORD_MAX - 4 < bytes < WORD_MAX && h in tags && 4 <= tags[h]
    ensures IntsFor(bytes) == 4 && 2 <= Granted(tags, h, IntsFor(bytes)) - 2 <= 5
  {
  }

  /** Payloads of two live blocks share no word. */
  lemma LivePayloadsApart(tags: Tags, len: int, h: int, g: int, i: int)
    requires Tiling(tags, len) && Live(tags, len, h) && Live(tags, len, g) && h != g
    requires h < i < h + Abs(tags[h]) - 1
    ensures !(g <= i < g + Abs(tags[g])) && 2 <= h && h + Abs(tags[h]) <= len - 2
  {
    assert Apart(tags, h, g) && BlockOk(tags, len, h) && BlockOk(tags, len, g);
    assert Apart(tags, h, len - 2) && Apart(tags, h, 0);
  }
}

/** VMM::mmap's search for a gap in a process's list of regions. */
module Mmap {
  import opened Bytes

  const USER: int := 0x8000_0000

  datatype Region = Region(start: int, size: int)

  function End(r: Region): int { r.start + r.size }

  /** 32-bit addition. */
  function Add(a: int, b: int): int { (a + b) % WORD_MAX }

  /** frameup: round a length up to whole frames, in 32-bit arithmetic. */
  function FrameUp(length: int): int { Add(length, 4095) / 4096 * 4096 }

  /** Rounding up covers the length exactly when it does not wrap. */
  lemma FrameUpCovers(length: int)
    requires 0 <= length < WORD_MAX
    ensures FrameUp(length) >= length <==> length <= WORD_MAX - 4096
    ensures FrameUp(length) % 4096 == 0 && FrameUp(length) < length + 4096
  {
  }

  // ---------------------------------------------------------------- the list

  ghost predicate Before(l: seq<Region>, i: int, j: int)
    requires 0 <= i < j < |l|
  {
    End(l[i]) <= l[j].start
  }

  /** Sorted by address, no two regions overlapping. */
  ghost predicate Sorted(l: seq<Region>) {
    forall i, j {:trigger Before(l, i, j)} :: 0 <= i < j < |l| ==> Before(l, i, j)
  }

  /** Addresses and sizes are 32-bit; no sum of them need be, not even the end of a region. */
  ghost predicate Words(l: seq<Region>, va: int, size: int) {
    && 0 <= va < WORD_MAX && 0 <= size < WORD_MAX
    && forall i {:trigger l[i]} :: 0 <= i < |l| ==> 0 <= l[i].start < WORD_MAX && 0 <= l[i].size < WORD_MAX
  }

  /** The gap before region `i` has strictly more room than `size`. */
  predicate Room(l: seq<Region>, i: int, size: int)
    requires 1 <= i < |l|
  {
    End(l[i - 1]) + size < l[i].start
  }

  /** Some gap past `va` has room. */
  ghost predicate RoomAhead(l: seq<Region>, va: int, size: int) {
    exists i :: 1 <= i < |l| && va < l[i].start && Room(l, i, size)
  }

  /** The last region is empty (a mapping of length 0) and touches the one before it. */
  predicate EmptyTail(l: seq<Region>) {
    2 <= |l| && l[|l| - 1].size == 0 && End(l[|l| - 2]) == l[|l| - 1].start
  }

  // ---------------------------------------------------------------- the search

  /** Address chosen and list position to insert at. */
  datatype Slot = Slot(va: int, i: int)

  /** The search from list position `i` on: the code's loop, with the 32-bit sums it computes. */
  function Search(l: seq<Region>, i: int, va: int, size: int): (r: Slot)
    requires 1 <= i <= |l|
    ensures i <= r.i <= |l|
    decreases |l| - i
  {
    if i == |l| then Slot(va, i)
    else if va >= l[i].start then Search(l, i + 1, va, size)
    else
      var end := Add(l[i - 1].start, l[i - 1].size);
      if va >= end && Add(va, size) < l[i].start then Slot(va, i)
      else if Add(end, size) < l[i].start then Slot(end, i)
      else Search(l, i + 1, end, size)
  }

  function Choose(l: seq<Region>, va: int, size: int): (r: Slot)
    ensures 0 <= r.i <= |l|
  {
    if l == [] then Slot(va, 0) else Search(l, 1, va, size)
  }

  function Insert(l: seq<Region>, s: Slot, size: int): seq<Region>
    requires 0 <= s.i <= |l|
  {
    l[..s.i] + [Region(s.va, size)] + l[s.i..]
  }

  /** The same search without modular sums: a sum that wraps is accepted whatever the gap. */
  function Exact(l: seq<Region>, i: int, va: int, size: int): (r: Slot)
    requires 1 <= i <= |l|
    ensures i <= r.i <= |l|
    decreases |l| - i
  {
    if i == |l| then Slot(va, i)
    else if va >= l[i].start then Exact(l, i + 1, va, size)
    else if va >= End(l[i - 1]) && (va + size < l[i].start || WORD_MAX <= va + size) then Slot(va, i)
    else if Room(l, i, size) || WORD_MAX <= End(l[i - 1]) + size then Slot(End(l[i - 1]), i)
    else Exact(l, i + 1, End(l[i - 1]), size)
  }

  /** A 32-bit sum is the sum, or is smaller than either addend. */
  lemma SumIs(a: int, b: int)
    requires 0 <= a < WORD_MAX && 0 <= b < WORD_MAX
    ensures if a + b < WORD_MAX then Add(a, b) == a + b else Add(a, b) < a
  {
  }

  /** Every region but the last ends inside the address space, where the next one starts or before. */
  lemma Inner(l: seq<Region>, va: int, size: int, i: int)
    requires Sorted(l) && Words(l, va, size) && 1 <= i < |l|
    ensures l[i - 1].start <= End(l[i - 1]) <= l[i].start < WORD_MAX && Words(l, End(l[i - 1]), size)
  {
    assert l[i - 1].size >= 0 && l[i].size >= 0 && Before(l, i - 1, i);
  }

  /** The 32-bit search is the one that accepts wrapping sums. */
  lemma {:induction false} SearchIsExact(l: seq<Region>, i: int, va: int, size: int)
    requires Sorted(l) && Words(l, va, size) && 1 <= i <= |l|
    ensures Search(l, i, va, size) == Exact(l, i, va, size)
    decreases |l| - i
  {
    if i < |l| {
      assert l[i - 1].size >= 0;
      Inner(l, va, size, i);
      SumIs(l[i - 1].start, l[i - 1].size);
      SumIs(End(l[i - 1]), size);
      SumIs(va, size);
      if va >= l[i].start { SearchIsExact(l, i + 1, va, size); }
      else { SearchIsExact(l, i + 1, End(l[i - 1]), size); }
    }
  }

  lemma StartsGrow(l: seq<Region>, va: int, size: int, i: int, j: int)
    requires Sorted(l) && Words(l, va, size) && 0 <= i <= j < |l|
    ensures l[i].start <= End(l[i]) && l[j].start <= End(l[j]) && l[j].start < WORD_MAX
    ensures l[i].start <= l[j].start && End(l[i]) <= End(l[j])
    ensures i < j ==> End(l[i]) <= l[j].start
  {
    assert l[i].size >= 0 && l[j].size >= 0;
    assert i == j || Before(l, i, j);
  }

  /** Stopping at a gap: the new region lies strictly inside it, or its end wrapped. */
  lemma {:induction false} FoundFits(l: seq<Region>, i: int, va: int, size: int)
    requires Sorted(l) && Words(l, va, size) && 1 <= i <= |l|
    ensures var r := Exact(l, i, va, size);
            r.i < |l| ==>
              End(l[r.i - 1]) <= r.va <= l[r.i].start && (r.va + size < l[r.i].start || WORD_MAX <= r.va + size)
    decreases |l| - i
  {
    if i < |l| {
      assert Before(l, i - 1, i);
      StartsGrow(l, va, size, i - 1, i);
      Inner(l, va, size, i);
      if va >= l[i].start { FoundFits(l, i + 1, va, size); }
      else { FoundFits(l, i + 1, End(l[i - 1]), size); }
    }
  }

  /** The address handed out is the one asked for or the end of some region but the last. */
  lemma {:induction false} ChosenIsLow(l: seq<Region>, i: int, va: int, size: int, bound: int)
    requires Sorted(l) && Words(l, va, size) && 1 <= i <= |l| && va <= bound
    requires 2 <= |l| ==> End(l[|l| - 2]) <= bound
    ensures Exact(l, i, va, size).va <= bound
    decreases |l| - i
  {
    if i < |l| {
      StartsGrow(l, va, size, i - 1, |l| - 2);
      Inner(l, va, size, i);
      if va >= l[i].start { ChosenIsLow(l, i + 1, va, size, bound); }
      else { ChosenIsLow(l, i + 1, End(l[i - 1]), size, bound); }
    }
  }

  /** A gap with strictly more room ahead of an address whose sum does not wrap is never missed. */
  lemma {:induction false} RoomIsFound(l: seq<Region>, i: int, va: int, size: int, g: int)
    requires Sorted(l) && Words(l, va, size) && 1 <= i <= g < |l| && va < l[g].start && Room(l, g, size)
    requires va + size < WORD_MAX
    ensures var r := Exact(l, i, va, size);
            r.i < |l| && r.va + size < WORD_MAX
    decreases |l| - i
  {
    StartsGrow(l, va, size, i - 1, g - 1);
    StartsGrow(l, va, size, g, g);
    Inner(l, va, size, i);
    if va >= l[i].start {
      RoomIsFound(l, i + 1, va, size, g);
    } else if !Room(l, i, size) {
      StartsGrow(l, va, size, i, g);
      RoomIsFound(l, i + 1, End(l[i - 1]), size, g);
    }
  }

  /** Running off the end from an address below the last region's end stays below it, unless an empty tail is there. */
  lemma {:induction false} LostStaysLow(l: seq<Region>, i: int, va: int, size: int)
    requires Sorted(l) && Words(l, va, size) && 1 <= i <= |l| && va < End(l[|l| - 1]) && !EmptyTail(l)
    ensures Exact(l, i, va, size).i == |l| ==> Exact(l, i, va, size).va < End(l[|l| - 1])
    decreases |l| - i
  {
    if i < |l| {
      StartsGrow(l, va, size, i - 1, |l| - 2);
      StartsGrow(l, va, size, |l| - 2, |l| - 1);
      Inner(l, va, size, i);
      if va >= l[i].start { LostStaysLow(l, i + 1, va, size); }
      else { LostStaysLow(l, i + 1, End(l[i - 1]), size); }
    }
  }

  /** An empty tail: running off the end leaves the address at or past it. */
  lemma {:induction false} TailIsPassed(l: seq<Region>, i: int, va: int, size: int)
    requires Sorted(l) && Words(l, va, size) && 1 <= i < |l| && EmptyTail(l)
    ensures Exact(l, i, va, size).i == |l| ==> End(l[|l| - 1]) <= Exact(l, i, va, size).va
    decreases |l| - i
  {
    if i < |l| - 1 {
      Inner(l, va, size, i);
      if va >= l[i].start { TailIsPassed(l, i + 1, va, size); }
      else { TailIsPassed(l, i + 1, End(l[i - 1]), size); }
    }
  }

  /** An empty tail behind which the size wraps is never passed. */
  lemma {:induction false} TailIsCaught(l: seq<Region>, i: int, va: int, size: int)
    requires Sorted(l) && Words(l, va, size) && 1 <= i < |l| && EmptyTail(l)
    requires va < End(l[|l| - 1]) && WORD_MAX <= End(l[|l| - 1]) + size
    ensures Exact(l, i, va, size).i < |l|
    decreases |l| - i
  {
    StartsGrow(l, va, size, i - 1, |l| - 2);
    if i < |l| - 1 {
      Inner(l, va, size, i);
      if va >= l[i].start { TailIsCaught(l, i + 1, va, size); }
      else if End(l[i - 1]) + size < WORD_MAX { TailIsCaught(l, i + 1, End(l[i - 1]), size); }
    }
  }

  /** Without room ahead the search runs off the end or accepts a sum that wrapped. */
  lemma {:induction false} NoRoomIsLost(l: seq<Region>, i: int, va: int, size: int)
    requires Sorted(l) && Words(l, va, size) && 1 <= i <= |l| && !RoomAhead(l, va, size)
    ensures var r := Exact(l, i, va, size);
            r.i == |l| || WORD_MAX <= r.va + size
    decreases |l| - i
  {
    if i < |l| {
      if va >= l[i].start {
        NoRoomIsLost(l, i + 1, va, size);
      } else {
        assert !Room(l, i, size);
        NoRoomLater(l, i, va, size);
        Inner(l, va, size, i);
        NoRoomIsLost(l, i + 1, End(l[i - 1]), size);
      }
    }
  }

  lemma NoRoomLater(l: seq<Region>, i: int, va: int, size: int)
    requires Sorted(l) && Words(l, va, size) && 1 <= i < |l| && !RoomAhead(l, va, size) && va < l[i].start
    ensures !RoomAhead(l, End(l[i - 1]), size)
  {
    forall g | 1 <= g < |l| && End(l[i - 1]) < l[g].start ensures !Room(l, g, size) {
      if g < i { StartsGrow(l, va, size, g, i - 1); } else { StartsGrow(l, va, size, i, g); }
    }
  }

  /** From an address whose own sum wraps, the search accepts a wrapped sum or runs off the end with that address. */
  lemma {:induction false} WrapIsCaught(l: seq<Region>, i: int, va: int, size: int)
    requires Sorted(l) && Words(l, va, size) && 1 <= i <= |l| && WORD_MAX <= va + size
    ensures var r := Exact(l, i, va, size);
            WORD_MAX <= r.va + size && (r.i == |l| ==> r.va == va)
    decreases |l| - i
  {
    if i < |l| && va >= l[i].start { WrapIsCaught(l, i + 1, va, size); }
  }

  /** Past the last region the search changes nothing. */
  lemma {:induction false} BeyondIsKept(l: seq<Region>, i: int, va: int, size: int)
    requires Sorted(l) && Words(l, va, size) && 1 <= i <= |l| && End(l[|l| - 1]) <= va
    ensures Exact(l, i, va, size) == Slot(va, |l|)
    decreases |l| - i
  {
    if i < |l| {
      StartsGrow(l, va, size, i, |l| - 1);
      BeyondIsKept(l, i + 1, va, size);
    }
  }

  lemma InsertSorted(l: seq<Region>, s: Slot, size: int)
    requires Sorted(l) && 0 <= s.i <= |l| && 0 <= size
    ensures Sorted(Insert(l, s, size)) <==>
            (forall j {:trigger l[j]} :: 0 <= j < |l| ==>
                if j < s.i then End(l[j]) <= s.va else s.va + size <= l[j].start)
  {
    var m := Insert(l, s, size);
    if Sorted(m) {
      forall j | 0 <= j < |l| ensures if j < s.i then End(l[j]) <= s.va else s.va + size <= l[j].start {
        assert if j < s.i then Before(m, j, s.i) else Before(m, s.i, j + 1);
      }
    }
    if forall j {:trigger l[j]} :: 0 <= j < |l| ==> if j < s.i then End(l[j]) <= s.va else s.va + size <= l[j].start {
      forall i, j | 0 <= i < j < |m| ensures Before(m, i, j) {
        if i != s.i && j != s.i {
          assert Before(l, if i < s.i then i else i - 1, if j < s.i then j else j - 1);
        }
        assert m[i] == if i < s.i then l[i] else if i == s.i then Region(s.va, size) else l[i - 1];
        assert m[j] == if j < s.i then l[j] else if j == s.i then Region(s.va, size) else l[j - 1];
      }
    }
  }

  /** The loop stops at a gap that holds the region exactly when the address's own sum does not wrap and
      some gap ahead of it has strictly more room than needed. */
  lemma GapFoundWhen(l: seq<Region>, va: int, size: int)
    requires Sorted(l) && Words(l, va, size) && l != []
    ensures var s := Choose(l, va, size);
            s.i < |l| && s.va + size < WORD_MAX <==> va + size < WORD_MAX && RoomAhead(l, va, size)
  {
    SearchIsExact(l, 1, va, size);
    if WORD_MAX <= va + size {
      WrapIsCaught(l, 1, va, size);
    } else if RoomAhead(l, va, size) {
      var g :| 1 <= g < |l| && va < l[g].start && Room(l, g, size);
      RoomIsFound(l, 1, va, size, g);
    } else {
      NoRoomIsLost(l, 1, va, size);
    }
  }

  /** The first gap ahead of the address that has strictly more room than needed is the one before region `g`. */
  ghost predicate FirstRoom(l: seq<Region>, i: int, va: int, size: int, g: int) {
    && 1 <= i <= g < |l| && va < l[g].start && Room(l, g, size)
    && forall j {:trigger l[j]} :: i <= j < g && va < l[j].start ==> !Room(l, j, size)
  }

  /** The address itself lies in the gap before region `i`, with the whole region strictly inside. */
  predicate FitsAt(l: seq<Region>, va: int, size: int, i: int)
    requires 1 <= i < |l|
  {
    End(l[i - 1]) <= va && va + size < l[i].start
  }

  lemma {:induction false} FirstGapIsTaken(l: seq<Region>, i: int, va: int, size: int, g: int)
    requires Sorted(l) && Words(l, va, size) && va + size < WORD_MAX && FirstRoom(l, i, va, size, g)
    ensures Exact(l, i, va, size) == Slot(if FitsAt(l, va, size, g) then va else End(l[g - 1]), g)
    decreases |l| - i
  {
    Inner(l, va, size, i);
    Inner(l, va, size, g);
    StartsGrow(l, va, size, i - 1, g - 1);
    if i < g {
      StartsGrow(l, va, size, i, g - 1);
      assert va < l[i].start ==> !Room(l, i, size);
      forall j | i < j < g && va < l[i].start ensures !Room(l, j, size) { StartsGrow(l, va, size, i, j); }
      FirstGapIsTaken(l, i + 1, if va >= l[i].start then va else End(l[i - 1]), size, g);
    }
  }

  /** Which gap is taken: the first one ahead of the address with strictly more room than needed; the answer is
      the address itself if it fits there, and the lower end of the gap otherwise. */
  lemma GapTaken(l: seq<Region>, va: int, size: int, g: int)
    requires Sorted(l) && Words(l, va, size) && va + size < WORD_MAX && FirstRoom(l, 1, va, size, g)
    ensures Choose(l, va, size) == Slot(if FitsAt(l, va, size, g) then va else End(l[g - 1]), g)
  {
    SearchIsExact(l, 1, va, size);
    FirstGapIsTaken(l, 1, va, size, g);
  }

  /** An address that is free, with room behind it, is the one handed out. */
  lemma AddressKept(l: seq<Region>, va: int, size: int, i: int)
    requires Sorted(l) && Words(l, va, size) && 1 <= i < |l| && FitsAt(l, va, size, i)
    ensures Choose(l, va, size) == Slot(va, i)
  {
    Inner(l, va, size, i);
    forall j | 1 <= j < i ensures l[j].start <= va { StartsGrow(l, va, size, j, i - 1); }
    GapTaken(l, va, size, i);
  }

  /** When no gap holds the region: the address if its own sum wraps in front of the first crossed region or it is
      past the last start, and otherwise the end of the region before. */
  lemma {:induction false} OtherwiseTaken(l: seq<Region>, i: int, va: int, size: int)
    requires Sorted(l) && Words(l, va, size) && 1 <= i < |l|
    ensures var r := Exact(l, i, va, size);
            r.i < |l| && WORD_MAX <= r.va + size ==>
              r.va == if End(l[r.i - 1]) <= va && WORD_MAX <= va + size then va else End(l[r.i - 1])
    decreases |l| - i
  {
    Inner(l, va, size, i);
    if i < |l| - 1 {
      if va >= l[i].start { OtherwiseTaken(l, i + 1, va, size); }
      else { OtherwiseTaken(l, i + 1, End(l[i - 1]), size); }
    }
  }

  /** When the loop stops at a gap, the list stays sorted exactly when the accepted sum did not wrap. */
  lemma FoundInserts(l: seq<Region>, va: int, size: int)
    requires Sorted(l) && Words(l, va, size) && l != []
    ensures var s := Choose(l, va, size);
            s.i < |l| ==> (Sorted(Insert(l, s, size)) <==> s.va + size < WORD_MAX)
  {
    var s := Choose(l, va, size);
    SearchIsExact(l, 1, va, size);
    FoundFits(l, 1, va, size);
    InsertSorted(l, s, size);
    if s.i < |l| {
      StartsGrow(l, va, size, s.i, s.i);
      if s.va + size < WORD_MAX {
        forall j | 0 <= j < |l| ensures if j < s.i then End(l[j]) <= s.va else s.va + size <= l[j].start {
          if j < s.i { StartsGrow(l, va, size, j, s.i - 1); } else { StartsGrow(l, va, size, s.i, j); }
        }
      } else {
        assert !(s.va + size <= l[s.i].start);
      }
    }
  }

  /** When the loop runs off the end, the list stays sorted exactly when the address is past the last region. */
  lemma LostInserts(l: seq<Region>, va: int, size: int)
    requires Sorted(l) && Words(l, va, size) && l != []
    ensures var s := Choose(l, va, size);
            s.i == |l| ==> (Sorted(Insert(l, s, size)) <==> End(l[|l| - 1]) <= s.va)
  {
    var s := Choose(l, va, size);
    InsertSorted(l, s, size);
    if s.i == |l| && End(l[|l| - 1]) <= s.va {
      forall j | 0 <= j < |l| ensures End(l[j]) <= s.va { StartsGrow(l, va, size, j, |l| - 1); }
    }
  }

  /** The search ends at or past an empty tail exactly when nothing in front of the tail is accepted. */
  lemma TailWhen(l: seq<Region>, va: int, size: int)
    requires Sorted(l) && Words(l, va, size) && EmptyTail(l) && va < End(l[|l| - 1])
    requires !(va + size < WORD_MAX && RoomAhead(l, va, size))
    ensures var r := Exact(l, 1, va, size);
            if End(l[|l| - 1]) + size < WORD_MAX
            then r.i == |l| && r.va == End(l[|l| - 1])
            else r.i < |l| && WORD_MAX <= r.va + size
  {
    var end := End(l[|l| - 1]);
    if end + size < WORD_MAX {
      ChosenIsLow(l, 1, va, size, end);
      NoRoomIsLost(l, 1, va, size);
      TailIsPassed(l, 1, va, size);
    } else {
      TailIsCaught(l, 1, va, size);
      if va + size < WORD_MAX { NoRoomIsLost(l, 1, va, size); } else { WrapIsCaught(l, 1, va, size); }
    }
  }

  /** The list stays sorted exactly when it was empty, the address is past the last region, the address's
      own sum does not wrap and a gap ahead of it has strictly more room than needed, or an empty region
      that touches its neighbour ends the list and the size does not wrap behind it. */
  lemma MmapIsSortedWhen(l: seq<Region>, va: int, size: int)
    requires Sorted(l) && Words(l, va, size)
    ensures Sorted(Insert(l, Choose(l, va, size), size)) <==>
            || l == []
            || End(l[|l| - 1]) <= va
            || (va + size < WORD_MAX && RoomAhead(l, va, size))
            || (EmptyTail(l) && End(l[|l| - 1]) + size < WORD_MAX)
  {
    if l == [] {
      InsertSorted(l, Slot(va, 0), size);
    } else {
      SearchIsExact(l, 1, va, size);
      GapFoundWhen(l, va, size);
      FoundInserts(l, va, size);
      LostInserts(l, va, size);
      if End(l[|l| - 1]) <= va {
        BeyondIsKept(l, 1, va, size);
      } else if !(va + size < WORD_MAX && RoomAhead(l, va, size)) {
        if EmptyTail(l) { TailWhen(l, va, size); } else { LostStaysLow(l, 1, va, size); }
      }
    }
  }

  ghost predicate Inside(l: seq<Region>) {
    forall i {:trigger l[i]} :: 0 <= i < |l| ==> End(l[i]) <= WORD_MAX
  }

  /** The list as it should be: sorted, and every region inside the address space. */
  ghost predicate Placed(l: seq<Region>) { Sorted(l) && Words(l, 0, 0) && Inside(l) }

  /** One call keeps the list so exactly when there is a place and the sums it relies on do not wrap. */
  lemma MmapKeepsListWhen(l: seq<Region>, va: int, size: int)
    requires Placed(l) && 0 <= va < WORD_MAX && 0 <= size < WORD_MAX
    ensures Placed(Insert(l, Choose(l, va, size), size)) <==>
            || (va + size <= WORD_MAX && (l == [] || End(l[|l| - 1]) <= va))
            || (va + size < WORD_MAX && RoomAhead(l, va, size))
            || (EmptyTail(l) && va < End(l[|l| - 1]) && End(l[|l| - 1]) + size < WORD_MAX)
  {
    var s := Choose(l, va, size);
    MmapIsSortedWhen(l, va, size);
    if l != [] {
      SearchIsExact(l, 1, va, size);
      ChosenIsWord(l, 1, va, size);
      if End(l[|l| - 1]) <= va {
        BeyondIsKept(l, 1, va, size);
      } else {
        GapFoundWhen(l, va, size);
        if EmptyTail(l) && !(va + size < WORD_MAX && RoomAhead(l, va, size)) { TailWhen(l, va, size); }
      }
    }
    InsertInside(l, s, size);
  }

  lemma {:induction false} ChosenIsWord(l: seq<Region>, i: int, va: int, size: int)
    requires Sorted(l) && Words(l, va, size) && 1 <= i <= |l|
    ensures 0 <= Exact(l, i, va, size).va < WORD_MAX
    decreases |l| - i
  {
    if i < |l| {
      Inner(l, va, size, i);
      if va >= l[i].start { ChosenIsWord(l, i + 1, va, size); } else { ChosenIsWord(l, i + 1, End(l[i - 1]), size); }
    }
  }

  lemma InsertInside(l: seq<Region>, s: Slot, size: int)
    requires Words(l, 0, 0) && Inside(l) && 0 <= s.i <= |l| && 0 <= s.va < WORD_MAX && 0 <= size < WORD_MAX
    ensures Words(Insert(l, s, size), 0, 0)
    ensures Inside(Insert(l, s, size)) <==> s.va + size <= WORD_MAX
  {
    var m := Insert(l, s, size);
    assert m[s.i] == Region(s.va, size);
    forall i | 0 <= i < |m| && i != s.i ensures m[i] == l[if i < s.i then i else i - 1] {
    }
  }

  // ---------------------------------------------------------------- overlaps

  /** Two regions share an address. */
  predicate Overlap(a: Region, b: Region) {
    0 < a.size && 0 < b.size && a.start < End(b) && b.start < End(a)
  }

  /** The new region shares no address with any region of the list. */
  ghost predicate Clear(l: seq<Region>, r: Region) {
    forall j {:trigger l[j]} :: 0 <= j < |l| ==> !Overlap(l[j], r)
  }

  lemma SortedIsClear(l: seq<Region>, s: Slot, size: int)
    requires Sorted(l) && 0 <= s.i <= |l| && 0 <= size && Sorted(Insert(l, s, size))
    ensures Clear(l, Region(s.va, size))
  {
    InsertSorted(l, s, size);
  }

  /** Region `j` starts behind the address, and behind a sum that wraps. */
  predicate Crossed(l: seq<Region>, va: int, size: int, j: int)
    requires 1 <= j < |l|
  {
    va < l[j].start && (WORD_MAX <= va + size || WORD_MAX <= End(l[j - 1]) + size)
  }

  /** When no gap holds the region, it is put in front of the first crossed region, or last if there is none. */
  lemma {:induction false} CrossedIs(l: seq<Region>, i: int, va: int, size: int, j: int)
    requires Sorted(l) && Words(l, va, size) && 1 <= i <= j < |l|
    requires var r := Exact(l, i, va, size);
             r.i == |l| || WORD_MAX <= r.va + size
    ensures Crossed(l, va, size, j) <==> Exact(l, i, va, size).i <= j
    decreases |l| - i
  {
    Inner(l, va, size, i);
    StartsGrow(l, va, size, i, j);
    StartsGrow(l, va, size, i - 1, j - 1);
    Inner(l, va, size, j);
    if i < j {
      if va >= l[i].start {
        CrossedIs(l, i + 1, va, size, j);
      } else if End(l[i - 1]) + size < WORD_MAX && !(va >= End(l[i - 1]) && WORD_MAX <= va + size) {
        CrossedIs(l, i + 1, End(l[i - 1]), size, j);
      }
    }
  }

  /** Running off the end: where the address ends up. */
  lemma {:induction false} LostAt(l: seq<Region>, i: int, va: int, size: int)
    requires Sorted(l) && Words(l, va, size) && 1 <= i < |l|
    ensures var r := Exact(l, i, va, size);
            r.i == |l| ==>
              if va >= l[|l| - 1].start then r.va == va
              else r.va == End(l[|l| - 2]) && l[|l| - 1].start <= r.va + size
    decreases |l| - i
  {
    StartsGrow(l, va, size, i, |l| - 1);
    StartsGrow(l, va, size, i - 1, |l| - 2);
    Inner(l, va, size, |l| - 1);
    Inner(l, va, size, i);
    if i < |l| - 1 {
      if va >= l[i].start { LostAt(l, i + 1, va, size); } else { LostAt(l, i + 1, End(l[i - 1]), size); }
    }
  }

  /** What is handed out off the end: the address if there is one region or it is past the last start, and otherwise
      the end of the last region but one. */
  lemma LostTaken(l: seq<Region>, va: int, size: int)
    requires Sorted(l) && Words(l, va, size) && l != [] && Choose(l, va, size).i == |l|
    ensures Choose(l, va, size).va == if |l| == 1 || l[|l| - 1].start <= va then va else End(l[|l| - 2])
  {
    SearchIsExact(l, 1, va, size);
    if 2 <= |l| { LostAt(l, 1, va, size); }
  }

  /** Off the end, only the last region can be in the way. */
  lemma LostIsClearWhen(l: seq<Region>, va: int, size: int)
    requires Sorted(l) && Words(l, va, size) && 2 <= |l| && 0 < size && va < End(l[|l| - 1])
    requires Exact(l, 1, va, size).i == |l|
    ensures Clear(l, Region(Exact(l, 1, va, size).va, size)) <==>
            va < l[|l| - 1].start && (l[|l| - 1].size == 0 || End(l[|l| - 2]) + size == l[|l| - 1].start)
  {
    var v, last := Exact(l, 1, va, size).va, l[|l| - 1];
    LostAt(l, 1, va, size);
    StartsGrow(l, va, size, |l| - 2, |l| - 1);
    assert last.size >= 0;
    assert Overlap(last, Region(v, size)) <==> last.size > 0 && last.start < v + size;
    forall j | 0 <= j < |l| - 1 ensures !Overlap(l[j], Region(v, size)) {
      StartsGrow(l, va, size, j, |l| - 2);
    }
  }

  /** A region accepted by a wrapped sum runs over every region behind it that is not empty. */
  lemma WrapIsClearWhen(l: seq<Region>, va: int, size: int)
    requires Sorted(l) && Words(l, va, size) && l != [] && 0 < size
    requires var r := Exact(l, 1, va, size);
             r.i < |l| && WORD_MAX <= r.va + size
    ensures var r := Exact(l, 1, va, size);
            Clear(l, Region(r.va, size)) <==> forall j {:trigger l[j]} :: r.i <= j < |l| ==> l[j].size == 0
  {
    var r := Exact(l, 1, va, size);
    FoundFits(l, 1, va, size);
    forall j | 0 <= j < |l| ensures Overlap(l[j], Region(r.va, size)) <==> r.i <= j && l[j].size != 0 {
      if j < r.i { StartsGrow(l, va, size, j, r.i - 1); } else { StartsGrow(l, va, size, r.i, j); }
      assert l[j].size >= 0;
    }
  }

  /** The new region overlaps none exactly when it is empty itself, the list was empty, the address is past the
      last region, the address's own sum does not wrap and a gap ahead has strictly more room than needed, the
      region fits in front of the only one or that one is empty, or the last region is empty or the gap in front
      of it has exactly the size while every region behind a sum that wraps is empty. */
  lemma MmapIsClearWhen(l: seq<Region>, va: int, size: int)
    requires Sorted(l) && Words(l, va, size)
    ensures Clear(l, Region(Choose(l, va, size).va, size)) <==>
            || size == 0
            || l == []
            || End(l[|l| - 1]) <= va
            || (va + size < WORD_MAX && RoomAhead(l, va, size))
            || (|l| == 1 && (l[0].size == 0 || va + size <= l[0].start))
            || (2 <= |l| && va < l[|l| - 1].start &&
                (l[|l| - 1].size == 0 || End(l[|l| - 2]) + size == l[|l| - 1].start) &&
                forall j :: 1 <= j < |l| && Crossed(l, va, size, j) ==> l[j].size == 0)
  {
    var s := Choose(l, va, size);
    if l != [] && 0 < size {
      SearchIsExact(l, 1, va, size);
      GapFoundWhen(l, va, size);
      MmapIsSortedWhen(l, va, size);
      if End(l[|l| - 1]) <= va || (va + size < WORD_MAX && RoomAhead(l, va, size)) {
        SortedIsClear(l, s, size);
      } else if |l| == 1 {
        assert l[0].size >= 0;
      } else {
        forall j | 1 <= j < |l| ensures Crossed(l, va, size, j) <==> s.i <= j { CrossedIs(l, 1, va, size, j); }
        if s.i == |l| {
          LostIsClearWhen(l, va, size);
        } else {
          WrapIsClearWhen(l, va, size);
          assert Crossed(l, va, size, |l| - 1);
        }
      }
    }
  }

  /** One region and an address inside it: the search hands that address out again. */
  lemma OverlapExample()
    ensures var l := [Region(USER, 4096)];
            Choose(l, USER, 4096) == Slot(USER, 1) && !Clear(l, Region(USER, 4096))
  {
    var l := [Region(USER, 4096)];
    assert Overlap(l[0], Region(USER, 4096));
  }

  /** A size whose sum wraps is accepted in a gap that is far too small. */
  lemma WrapExample()
    ensures var l := [Region(USER, 4096), Region(USER + 12288, 4096)];
            var size := WORD_MAX - USER;
            Choose(l, USER, size) == Slot(USER + 4096, 1) && !Clear(l, Region(USER + 4096, size))
  {
    var l := [Region(USER, 4096), Region(USER + 12288, 4096)];
    var size := WORD_MAX - USER;
    assert Add(USER, 4096) == USER + 4096 && Add(USER + 4096, size) == 4096;
    assert Overlap(l[1], Region(USER + 4096, size));
  }

  /** The list is in order and address `va` is free, with room behind it, between two of its regions or past them. */
  ghost predicate Free(l: seq<Region>, va: int, size: int) {
    && Sorted(l) && Words(l, va, size)
    && (l == [] || End(l[|l| - 1]) <= va || exists i :: 1 <= i < |l| && FitsAt(l, va, size, i))
  }

  lemma FreeIsKept(l: seq<Region>, va: int, size: int)
    ensures Free(l, va, size) ==> Choose(l, va, size).va == va
  {
    if Free(l, va, size) && l != [] {
      if End(l[|l| - 1]) <= va {
        SearchIsExact(l, 1, va, size);
        BeyondIsKept(l, 1, va, size);
      } else {
        var i :| 1 <= i < |l| && FitsAt(l, va, size, i);
        AddressKept(l, va, size, i);
      }
    }
  }

  // ---------------------------------------------------------------- the operations

  class AddressSpace {
    var list: seq<Region>
    const io: int
    const local: int

    predicate IsSpecial(va: int) { va < USER || va == io || va == local }

    /** mmap; 0 stands for the null result. */
    method Map(addr: int, length: int, fixed: bool) returns (res: int)
      requires 0 <= addr < WORD_MAX && 0 <= length < WORD_MAX
      modifies this
      ensures var va := if addr == 0 then 0x8000_0000 else addr;
              var s := Choose(old(list), va, FrameUp(length));
              if va < 0x8000_0000 || va == io || va == local || (s.va != addr && fixed)
              then res == 0 && list == old(list)
              else res == s.va && list == Insert(old(list), s, FrameUp(length))
      ensures !IsSpecial(addr) && Free(old(list), addr, FrameUp(length)) ==> res == addr
    {
      ghost var before := list;
      var va := if addr == 0 then USER else addr;
      if IsSpecial(va) { return 0; }
      var size := FrameUp(length);
      ghost var goal := Choose(list, va, size);
      var i := 0;
      if list != [] {
        i := 1;
        while i < |list|
          invariant 1 <= i <= |list| && list == old(list)
          invariant Search(list, i, va, size) == goal
        {
          if va >= list[i].start {
            i := i + 1;
            continue;
          }
          var end := Add(list[i - 1].start, list[i - 1].size);
          if va >= end && Add(va, size) < list[i].start { break; }
          va := end;
          if Add(va, size) < list[i].start { break; }
          i := i + 1;
        }
      }
      if !IsSpecial(addr) { FreeIsKept(before, addr, size); }
      if va != addr && fixed { return 0; }
      list := list[..i] + [Region(va, size)] + list[i..];
      res := va;
    }
  }
}

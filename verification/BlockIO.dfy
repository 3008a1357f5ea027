/** Reading a file through two layers of block devices: node blocks over disk sectors. */
module BlockIO {
  import opened Bytes

  const SECTOR: int := 512
  const DIRECT: int := 12

  /** The two block devices. The disk is an array of sectors; a node maps its blocks to disk blocks,
      the first twelve directly and the others through one indirect block. */
  datatype Device =
    | Ide(disk: seq<byte>)
    | Node(disk: seq<byte>, bs: int, size: int, sectors: int, direct: seq<int>, indirect: int)

  function BlockSize(d: Device): int { if d.Ide? then SECTOR else d.bs }

  /** size_in_bytes; the driver does not know the drive's size and claims all of 32 bits. */
  function Size(d: Device): int { if d.Ide? then WORD_MAX - 1 else d.size }

  ghost predicate Valid(d: Device) {
    && |d.disk| % SECTOR == 0
    && (d.Node? ==>
          && SECTOR <= d.bs < WORD_MAX && d.bs % SECTOR == 0 && 0 <= d.size < WORD_MAX
          && |d.direct| == DIRECT && (forall i :: 0 <= i < DIRECT ==> 0 <= d.direct[i]) && 0 <= d.indirect)
  }

  /** The byte range lies on the disk and within the driver's addresses. */
  predicate OnDisk(disk: seq<byte>, offset: int, n: int) {
    0 <= offset && 0 <= n && offset + n <= |disk| && offset + n < WORD_MAX
  }

  /** Where the pointer to file block `k` (12 or above) is stored. */
  function SlotOf(d: Device, k: int): int
    requires d.Node?
  {
    d.indirect * d.bs + (k - DIRECT) * 4
  }

  /** The block map: the disk block that holds file block `k`. */
  function BlockPtr(d: Device, k: int): int
    requires Valid(d) && d.Node? && 0 <= k && (DIRECT <= k ==> OnDisk(d.disk, SlotOf(d, k), 4))
  {
    if k < DIRECT then d.direct[k] else WordAt(d.disk, SlotOf(d, k))
  }

  /** The first twelve pointers are in the node; those of blocks 12, 13, ... tile the indirect block, word by word from
      its start. */
  lemma PointersTile(d: Device, k: int)
    requires Valid(d) && d.Node? && 0 <= k && (12 <= k ==> OnDisk(d.disk, SlotOf(d, k), 4))
    ensures k < 12 ==> BlockPtr(d, k) == d.direct[k]
    ensures 12 <= k ==> BlockPtr(d, k) == WordAt(d.disk, SlotOf(d, k))
    ensures SlotOf(d, 12) == d.indirect * d.bs && SlotOf(d, k + 1) == SlotOf(d, k) + 4
    ensures 12 <= k < 12 + d.bs / 4 ==>
              d.indirect * d.bs <= SlotOf(d, k) && SlotOf(d, k) + 4 <= d.indirect * d.bs + d.bs
  {
  }

  /** A file byte is where the block map says: in the named disk block, at its offset in the file block. */
  lemma FlatByte(d: Device, i: int)
    requires Valid(d) && d.Node? && 0 <= i && BlockOk(d, i / d.bs)
    ensures Flat(d, i) == d.disk[BlockPtr(d, i / d.bs) * d.bs + i % d.bs]
  {
  }

  /** Block `k` of the device exists. */
  predicate BlockOk(d: Device, k: int)
    requires Valid(d)
  {
    && 0 <= k
    && if d.Ide? then SECTOR * (k + 1) <= |d.disk|
       else
         && k < d.sectors / (d.bs / SECTOR) && k < DIRECT + d.bs / 4
         && (DIRECT <= k ==> OnDisk(d.disk, SlotOf(d, k), 4))
         && OnDisk(d.disk, BlockPtr(d, k) * d.bs, d.bs)
  }

  /** The contents of block `k`, straight from the disk. */
  function Block(d: Device, k: int): (b: seq<byte>)
    requires Valid(d) && BlockOk(d, k)
    ensures |b| == BlockSize(d)
  {
    if d.Ide? then d.disk[SECTOR * k..SECTOR * (k + 1)]
    else d.disk[BlockPtr(d, k) * d.bs..BlockPtr(d, k) * d.bs + d.bs]
  }

  /** Every block that bytes [offset, limit) touch exists. */
  ghost predicate Covered(d: Device, offset: int, limit: int)
    requires Valid(d)
  {
    forall k {:trigger BlockOk(d, k)} :: 0 <= k && offset < (k + 1) * BlockSize(d) && k * BlockSize(d) < limit ==>
      BlockOk(d, k)
  }

  lemma DivMod(offset: int, bs: int)
    requires 0 <= offset && 0 < bs
    ensures 0 <= offset % bs < bs && 0 <= offset / bs && offset / bs * bs + offset % bs == offset
    ensures (offset / bs + 1) * bs == offset / bs * bs + bs
  {
    Distribute(offset / bs + 1, offset / bs, bs);
  }

  lemma Locate(d: Device, i: int, offset: int, limit: int)
    requires Valid(d) && Covered(d, offset, limit) && 0 <= offset <= i < limit
    ensures BlockOk(d, i / BlockSize(d))
  {
    DivMod(i, BlockSize(d));
  }

  /** Byte `i` of the flat contents of the device. */
  function Flat(d: Device, i: int): byte
    requires Valid(d) && 0 <= i && BlockOk(d, i / BlockSize(d))
  {
    Block(d, i / BlockSize(d))[i % BlockSize(d)]
  }

  ghost predicate FlatIs(d: Device, i: int, b: byte)
    requires Valid(d)
  {
    0 <= i && BlockOk(d, i / BlockSize(d)) && Flat(d, i) == b
  }

  /** The destination holds the flat bytes [offset, offset + n). */
  ghost predicate Holds(d: Device, buf: seq<byte>, at: int, offset: int, n: int)
    requires Valid(d)
  {
    && 0 <= at && 0 <= n && at + n <= |buf| && 0 <= offset
    && forall j {:trigger HoldsAt(d, buf, at, offset, j)} :: at <= j < at + n ==> HoldsAt(d, buf, at, offset, j)
  }

  ghost predicate HoldsAt(d: Device, buf: seq<byte>, at: int, offset: int, j: int)
    requires Valid(d) && 0 <= j < |buf|
  {
    FlatIs(d, offset + (j - at), buf[j])
  }

  /** Nothing outside [at, at + n) changed. */
  ghost predicate Outside(buf: seq<byte>, buf': seq<byte>, at: int, n: int) {
    |buf'| == |buf| && forall j {:trigger Same(buf, buf', j)} :: 0 <= j < |buf| && !(at <= j < at + n) ==>
        Same(buf, buf', j)
  }

  ghost predicate Same(buf: seq<byte>, buf': seq<byte>, j: int)
    requires 0 <= j < |buf| == |buf'|
  {
    buf'[j] == buf[j]
  }

  function Min(a: int, b: int): int { if a < b then a else b }

  // ---------------------------------------------------------------- arithmetic of blocks

  /** Bytes of one block have that block's number and their position in it. */
  lemma SameBlock(k: int, r: int, bs: int)
    requires 0 <= k && 0 <= r < bs
    ensures (k * bs + r) / bs == k && (k * bs + r) % bs == r
  {
    var x := k * bs + r;
    DivMod(x, bs);
    var q := x / bs;
    Multiples(q - k, bs);
    Multiples(k - q, bs);
    Distribute(q, k, bs);
  }

  lemma Multiples(a: int, bs: int)
    requires 0 < bs
    ensures 1 <= a ==> bs <= a * bs
  {
  }

  lemma Distribute(q: int, k: int, bs: int)
    ensures (q - k) * bs == q * bs - k * bs && (k - q) * bs == k * bs - q * bs
  {
  }

  /** A run of bytes inside one block reads back as a slice of the block. */
  lemma BlockRun(d: Device, buf: seq<byte>, at: int, offset: int, n: int)
    requires Valid(d) && 0 <= offset && 0 <= n && 0 <= at && at + n <= |buf| && BlockOk(d, offset / BlockSize(d))
    requires offset % BlockSize(d) + n <= BlockSize(d)
    requires buf[at..at + n] == Block(d, offset / BlockSize(d))[offset % BlockSize(d)..offset % BlockSize(d) + n]
    ensures Holds(d, buf, at, offset, n)
  {
    var bs := BlockSize(d);
    var k, r := offset / bs, offset % bs;
    DivMod(offset, bs);
    forall j | at <= j < at + n ensures HoldsAt(d, buf, at, offset, j) {
      SameBlock(k, r + (j - at), bs);
      assert buf[j] == buf[at..at + n][j - at];
    }
  }

  lemma HoldsTwo(d: Device, buf: seq<byte>, at: int, offset: int, n: int, m: int)
    requires Valid(d) && Holds(d, buf, at, offset, n) && Holds(d, buf, at + n, offset + n, m)
    ensures Holds(d, buf, at, offset, n + m)
  {
    forall j | at <= j < at + n + m ensures HoldsAt(d, buf, at, offset, j) {
      assert if j < at + n then HoldsAt(d, buf, at, offset, j) else HoldsAt(d, buf, at + n, offset + n, j);
    }
  }

  lemma HoldsFrame(d: Device, buf: seq<byte>, buf': seq<byte>, at: int, offset: int, n: int)
    requires Valid(d) && Holds(d, buf, at, offset, n) && |buf'| == |buf|
    requires forall j :: at <= j < at + n ==> buf'[j] == buf[j]
    ensures Holds(d, buf', at, offset, n)
  {
    forall j | at <= j < at + n ensures HoldsAt(d, buf', at, offset, j) {
      assert HoldsAt(d, buf, at, offset, j);
    }
  }

  lemma NothingYet(d: Device, buf: seq<byte>, at: int, offset: int)
    requires Valid(d) && 0 <= at <= |buf| && 0 <= offset
    ensures Holds(d, buf, at, offset, 0) && Outside(buf, buf, at, 0)
  {
  }

  /** One more run of bytes behind those already there. */
  lemma OneMoreRun(d: Device, buf0: seq<byte>, buf: seq<byte>, buf': seq<byte>, at: int, offset: int, n: int, m: int)
    requires Valid(d) && Holds(d, buf, at, offset, n) && Outside(buf0, buf, at, n)
    requires Outside(buf, buf', at + n, m) && Holds(d, buf', at + n, offset + n, m)
    ensures Holds(d, buf', at, offset, n + m) && Outside(buf0, buf', at, n + m)
  {
    forall j | at <= j < at + n ensures buf'[j] == buf[j] { assert Same(buf, buf', j); }
    HoldsFrame(d, buf, buf', at, offset, n);
    HoldsTwo(d, buf', at, offset, n, m);
    forall j | 0 <= j < |buf0| && !(at <= j < at + n + m) ensures Same(buf0, buf', j) {
      assert Same(buf0, buf, j) && Same(buf, buf', j);
    }
  }

  lemma IdeByte(disk: seq<byte>, i: int, b: byte)
    requires Valid(Ide(disk)) && FlatIs(Ide(disk), i, b)
    ensures i < |disk| && b == disk[i]
  {
    DivMod(i, SECTOR);
  }

  /** What the disk driver delivers is the disk itself. */
  lemma IdeFlat(disk: seq<byte>, buf: seq<byte>, at: int, offset: int, n: int)
    requires Valid(Ide(disk)) && OnDisk(disk, offset, n) && Holds(Ide(disk), buf, at, offset, n)
    ensures buf[at..at + n] == disk[offset..offset + n]
  {
    forall j | at <= j < at + n ensures buf[j] == disk[offset + (j - at)] {
      assert HoldsAt(Ide(disk), buf, at, offset, j);
      IdeByte(disk, offset + (j - at), buf[j]);
    }
  }

  lemma IdeCovered(disk: seq<byte>, offset: int, n: int)
    requires Valid(Ide(disk)) && OnDisk(disk, offset, n)
    ensures Covered(Ide(disk), offset, offset + n)
  {
    var d := Ide(disk);
    forall k | 0 <= k && offset < (k + 1) * BlockSize(d) && k * BlockSize(d) < offset + n ensures BlockOk(d, k) {
      assert 512 * k < |disk| && |disk| % 512 == 0;
    }
  }

  // ---------------------------------------------------------------- the readers

  function Rank(d: Device): int { if d.Ide? then 0 else 1 }

  /** ide->read_all of a range that lies on the disk; `from` is a 32-bit product or sum. */
  method ReadDisk(disk: seq<byte>, from: int, n: int, buf: array<byte>, at: int)
    requires Valid(Ide(disk)) && OnDisk(disk, from, n) && 0 <= at && at + n <= buf.Length
    modifies buf
    ensures buf[at..at + n] == disk[from..from + n] && Outside(old(buf[..]), buf[..], at, n)
    decreases 0, 3
  {
    IdeCovered(disk, from, n);
    assert from % WORD_MAX == from;
    var cnt := ReadAll(Ide(disk), from % WORD_MAX, n, buf, at);
    IdeFlat(disk, buf[..], at, from, n);
    assert buf[..][at..at + n] == buf[at..at + n];
  }

  /** The single-indirect lookup of a node's block pointer. */
  method ReadPointer(d: Device, k: int) returns (blockIndex: int)
    requires Valid(d) && d.Node? && BlockOk(d, k)
    ensures blockIndex == BlockPtr(d, k)
    decreases 0, 4
  {
    if k < DIRECT { return d.direct[k]; }
    var word := new byte[4](_ => 0);
    var from := SlotOf(d, k);
    ReadDisk(d.disk, from, 4, word, 0);
    ghost var got := word[0..4];
    assert got[0] == word[0] && got[1] == word[1] && got[2] == word[2] && got[3] == word[3];
    blockIndex := Pack(word[0], word[1], word[2], word[3]);
  }

  method ReadBlock(d: Device, k: int, buf: array<byte>, at: int)
    requires Valid(d) && BlockOk(d, k) && 0 <= at && at + BlockSize(d) <= buf.Length
    modifies buf
    ensures buf[at..at + BlockSize(d)] == Block(d, k)
    ensures Outside(old(buf[..]), buf[..], at, BlockSize(d))
    decreases Rank(d), 0
  {
    if d.Ide? {
      ReadSector(d.disk, k, buf, at);
    } else {
      var blockIndex := ReadPointer(d, k);
      ReadDisk(d.disk, blockIndex * d.bs, d.bs, buf, at);
    }
  }

  /** Ide::read_block: one sector of the disk. */
  method ReadSector(disk: seq<byte>, k: int, buf: array<byte>, at: int)
    requires 0 <= k && SECTOR * (k + 1) <= |disk| && 0 <= at && at + SECTOR <= buf.Length
    modifies buf
    ensures buf[at..at + SECTOR] == disk[SECTOR * k..SECTOR * (k + 1)]
    ensures Outside(old(buf[..]), buf[..], at, SECTOR)
  {
    forall j | 0 <= j < SECTOR { buf[at + j] := disk[SECTOR * k + j]; }
  }

  /** At most one block: from `offset` to the end of its block, of the file, or of the request. */
  method Read(d: Device, offset: int, desired: int, buf: array<byte>, at: int) returns (cnt: int)
    requires Valid(d) && 0 <= offset < WORD_MAX && 0 <= desired < WORD_MAX
    requires 0 <= at
    requires offset < Size(d) ==>
               at + Min(desired, Size(d) - offset) <= buf.Length && BlockOk(d, offset / BlockSize(d))
    modifies buf
    ensures offset > Size(d) ==> cnt == -1 && buf[..] == old(buf[..])
    ensures offset == Size(d) ==> cnt == 0 && buf[..] == old(buf[..])
    ensures offset < Size(d) ==> cnt == Min(BlockSize(d) - offset % BlockSize(d), Min(desired, Size(d) - offset))
    ensures offset < Size(d) ==> (0 < desired ==> 0 < cnt) && Holds(d, buf[..], at, offset, cnt)
    ensures offset < Size(d) ==> Outside(old(buf[..]), buf[..], at, cnt)
    decreases Rank(d), 1
  {
    var sz, bs := Size(d), BlockSize(d);
    if offset > sz { return -1; }
    if offset == sz { return 0; }
    var n := Min(desired, sz - offset);
    var blockNumber, offsetInBlock := offset / bs, offset % bs;
    DivMod(offset, bs);
    cnt := Min(bs - offsetInBlock, n);
    if cnt == bs {
      ReadBlock(d, blockNumber, buf, at);
    } else {
      var temp := new byte[bs](_ => 0);
      ReadBlock(d, blockNumber, temp, 0);
      assert temp[..] == Block(d, blockNumber);
      forall j | 0 <= j < cnt { buf[at + j] := temp[offsetInBlock + j]; }
    }
    BlockRun(d, buf[..], at, offset, cnt);
  }

  /** The whole request: min(n, size - offset) bytes, equal to that slice of the flat contents. */
  method ReadAll(d: Device, offset: int, n: int, buf: array<byte>, at: int) returns (total: int)
    requires Valid(d) && 0 <= offset < WORD_MAX && 0 <= n < WORD_MAX && 0 <= at
    requires offset <= Size(d) ==>
               at + Min(n, Size(d) - offset) <= buf.Length && Covered(d, offset, offset + Min(n, Size(d) - offset))
    modifies buf
    ensures n == 0 ==> total == 0 && buf[..] == old(buf[..])
    ensures n > 0 && offset > Size(d) ==> total == -1 && buf[..] == old(buf[..])
    ensures offset <= Size(d) ==> total == Min(n, Size(d) - offset) && Holds(d, buf[..], at, offset, total)
    ensures offset <= Size(d) ==> Outside(old(buf[..]), buf[..], at, total)
    decreases Rank(d), 2
  {
    total := 0;
    var left, from, dst := n, offset, at;
    ghost var whole := Min(n, Size(d) - offset);
    if offset <= Size(d) { NothingYet(d, buf[..], at, offset); }
    while left > 0
      invariant 0 <= total && left == n - total && from == offset + total && dst == at + total && 0 <= left
      invariant if offset <= Size(d)
                then total <= whole && Holds(d, buf[..], at, offset, total) && Outside(old(buf[..]), buf[..], at, total)
                else total == 0
      invariant total == 0 ==> buf[..] == old(buf[..])
      decreases left
    {
      ghost var before := buf[..];
      if from < Size(d) { Locate(d, from, offset, offset + whole); }
      var cnt := Read(d, from, left, buf, dst);
      if cnt < 0 { return cnt; }
      if cnt == 0 { return total; }
      OneMoreRun(d, old(buf[..]), before, buf[..], at, offset, total, cnt);
      total := total + cnt;
      from := from + cnt;
      left := left - cnt;
      dst := dst + cnt;
    }
  }

  /** A file all of whose blocks exist can be read anywhere. */
  ghost predicate Complete(d: Device)
    requires Valid(d)
  {
    d.Node? && forall k {:trigger BlockOk(d, k)} :: 0 <= k && k * d.bs < d.size ==> BlockOk(d, k)
  }

  lemma CompleteCovers(d: Device, offset: int, limit: int)
    requires Valid(d) && Complete(d) && limit <= d.size
    ensures Covered(d, offset, limit)
  {
  }

  // ---------------------------------------------------------------- whole files

  /** read_all on a complete file: for every offset up to the end and every length, exactly the bytes
      min(n, size - offset) of the file from there. */
  method ReadFile(d: Device, offset: int, n: int, buf: array<byte>, at: int) returns (total: int)
    requires Valid(d) && Complete(d) && 0 <= offset < WORD_MAX && 0 <= n < WORD_MAX && 0 <= at && at + n <= buf.Length
    modifies buf
    ensures offset <= d.size ==> total == Min(n, d.size - offset) && Holds(d, buf[..], at, offset, total)
    ensures offset > d.size ==> total == if n == 0 then 0 else -1
    ensures Outside(old(buf[..]), buf[..], at, if total < 0 then 0 else total)
  {
    if offset <= d.size { CompleteCovers(d, offset, offset + Min(n, d.size - offset)); }
    total := ReadAll(d, offset, n, buf, at);
  }

  const FRAME: int := 4096

  /** Byte `j` of the page: that of the file, or zero past its end. */
  ghost predicate PageByte(d: Device, page: seq<byte>, offset: int, j: int)
    requires Valid(d) && d.Node? && 0 <= j < |page|
  {
    if offset + j < d.size then FlatIs(d, offset + j, page[j]) else page[j] == 0
  }

  /** The page fault of a readable file mapping: the file's bytes from `offset`, zeros behind its end. */
  method FillPage(d: Device, offset: int, page: array<byte>)
    requires Valid(d) && Complete(d) && 0 <= offset < WORD_MAX && page.Length == 4096
    modifies page
    ensures forall j {:trigger PageByte(d, page[..], offset, j)} :: 0 <= j < FRAME ==> PageByte(d, page[..], offset, j)
  {
    var read := ReadFile(d, offset, FRAME, page, 0);
    ghost var got := page[..];
    if read != FRAME {
      if read == -1 { read := 0; }
      forall i | 0 <= i < FRAME - read { page[read + i] := 0; }
    }
    forall j | 0 <= j < FRAME ensures PageByte(d, page[..], offset, j) {
      assert j < read ==> HoldsAt(d, got, 0, offset, j);
    }
  }
}

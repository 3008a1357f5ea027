/** Bytes of 32-bit little-endian words. */
module Bytes {

  type byte = x: int | 0 <= x < 256

  /** One past the largest 32-bit value. */
  const WORD_MAX: int := 0x1_0000_0000

  /** Byte `k` of the word with unsigned value `u`. */
  function ByteOf(u: int, k: int): int
    requires 0 <= k < 4
    decreases k
  {
    if k == 0 then u % 0x100 else ByteOf(u / 0x100, k - 1)
  }

  /** Byte `k` of the signed word `w`. */
  function Byte(w: int, k: int): int
    requires 0 <= k < 4
  {
    ByteOf(w % WORD_MAX, k)
  }

  function Signed(u: int): int { if u < 0x8000_0000 then u else u - WORD_MAX }

  function Pack(b0: int, b1: int, b2: int, b3: int): int {
    b0 + 0x100 * (b1 + 0x100 * (b2 + 0x100 * b3))
  }

  /** The little-endian word at offset `o`. */
  function WordAt(mem: seq<byte>, o: int): int
    requires 0 <= o && o + 4 <= |mem|
  {
    Pack(mem[o], mem[o + 1], mem[o + 2], mem[o + 3])
  }

  /** The word `dst` with its low `k` bytes taken from `src`. */
  function MergeLow(dst: int, src: int, k: int): int {
    Signed(Pack(Byte(if 0 < k then src else dst, 0), Byte(if 1 < k then src else dst, 1),
                Byte(if 2 < k then src else dst, 2), Byte(if 3 < k then src else dst, 3)))
  }

  lemma {:induction false} ByteRange(u: int, k: int)
    requires 0 <= k < 4
    ensures 0 <= ByteOf(u, k) < 0x100
    decreases k
  {
    if 0 < k { ByteRange(u / 0x100, k - 1); }
  }

  lemma PackedBytes(b0: int, b1: int, b2: int, b3: int)
    requires 0 <= b0 < 0x100 && 0 <= b1 < 0x100 && 0 <= b2 < 0x100 && 0 <= b3 < 0x100
    ensures var u := Pack(b0, b1, b2, b3);
            && 0 <= u < WORD_MAX
            && ByteOf(u, 0) == b0 && ByteOf(u, 1) == b1 && ByteOf(u, 2) == b2 && ByteOf(u, 3) == b3
  {
    var u := Pack(b0, b1, b2, b3);
    var u1, u2 := b1 + 0x100 * (b2 + 0x100 * b3), b2 + 0x100 * b3;
    assert u / 0x100 == u1 && u1 / 0x100 == u2 && u2 / 0x100 == b3;
    assert ByteOf(u2, 0) == b2 && ByteOf(b3, 0) == b3 && ByteOf(u1, 0) == b1;
    assert ByteOf(u2, 1) == b3;
    assert ByteOf(u1, 1) == b2 && ByteOf(u1, 2) == b3;
  }

  /** Packing the four bytes of a word gives the word back. */
  lemma UnpackedPacks(u: int)
    requires 0 <= u < WORD_MAX
    ensures Pack(ByteOf(u, 0), ByteOf(u, 1), ByteOf(u, 2), ByteOf(u, 3)) == u
  {
    var u1 := u / 0x100;
    var u2 := u1 / 0x100;
    var u3 := u2 / 0x100;
    assert ByteOf(u3, 0) == u3 by { assert 0 <= u3 < 0x100; }
    assert ByteOf(u2, 1) == u3;
    assert ByteOf(u1, 1) == u2 % 0x100 && ByteOf(u1, 2) == u3;
    assert ByteOf(u, 1) == u1 % 0x100 && ByteOf(u, 2) == u2 % 0x100 && ByteOf(u, 3) == u3;
    assert u2 == u2 % 0x100 + 0x100 * u3 && u1 == u1 % 0x100 + 0x100 * u2;
  }

  /** Words are little-endian: byte `k` of a word in memory is the one at its address plus `k`. */
  lemma WordBytes(mem: seq<byte>, o: int, k: int)
    requires 0 <= o && o + 4 <= |mem| && 0 <= k < 4
    ensures ByteOf(WordAt(mem, o), k) == mem[o + k]
  {
    PackedBytes(mem[o], mem[o + 1], mem[o + 2], mem[o + 3]);
  }

  lemma SignedSame(u: int)
    requires 0 <= u < WORD_MAX
    ensures Signed(u) % WORD_MAX == u
  {
  }

  /** The low bytes of a merged word are the source's, the high ones the destination's. */
  lemma MergedByte(dst: int, src: int, k: int, j: int)
    requires 0 <= j < 4
    ensures Byte(MergeLow(dst, src, k), j) == if j < k then Byte(src, j) else Byte(dst, j)
  {
    var b0, b1 := Byte(if 0 < k then src else dst, 0), Byte(if 1 < k then src else dst, 1);
    var b2, b3 := Byte(if 2 < k then src else dst, 2), Byte(if 3 < k then src else dst, 3);
    ByteRange((if 0 < k then src else dst) % WORD_MAX, 0);
    ByteRange((if 1 < k then src else dst) % WORD_MAX, 1);
    ByteRange((if 2 < k then src else dst) % WORD_MAX, 2);
    ByteRange((if 3 < k then src else dst) % WORD_MAX, 3);
    PackedBytes(b0, b1, b2, b3);
    SignedSame(Pack(b0, b1, b2, b3));
  }

  /** Byte `b` of the region that starts at word `p`. */
  function ByteAt(mem: seq<int>, p: int, b: int): int
    requires 0 <= p && 0 <= b && p + b / 4 < |mem|
  {
    Byte(mem[p + b / 4], b % 4)
  }

  /** The words after memcpy of `m` bytes from word `src` to word `dst`: whole words, then the low bytes of one more. */
  ghost predicate Copied(mem: seq<int>, mem': seq<int>, dst: int, src: int, m: int)
    requires 0 <= m && 0 <= dst && 0 <= src && dst + (m + 3) / 4 <= |mem| && src + (m + 3) / 4 <= |mem|
  {
    && |mem'| == |mem|
    && (forall i :: 0 <= i < |mem| && !(dst <= i < dst + (m + 3) / 4) ==> mem'[i] == mem[i])
    && (forall i :: dst <= i < dst + m / 4 ==> mem'[i] == mem[src + (i - dst)])
    && (m % 4 != 0 ==> mem'[dst + m / 4] == MergeLow(mem[dst + m / 4], mem[src + m / 4], m % 4))
  }

  /** The first `n` bytes at word `p'` of `mem'` are those at word `p` of `mem`. */
  ghost predicate SameBytes(mem: seq<int>, p: int, mem': seq<int>, p': int, n: int)
    requires 0 <= p && 0 <= p' && p + (n + 3) / 4 <= |mem| && p' + (n + 3) / 4 <= |mem'|
  {
    forall b :: 0 <= b < n ==> ByteAt(mem', p', b) == ByteAt(mem, p, b)
  }

  /** Only the words that hold the `m` bytes at word `dst` differ. */
  ghost predicate OnlySpan(mem: seq<int>, mem': seq<int>, dst: int, m: int)
    requires |mem'| == |mem|
  {
    forall i :: 0 <= i < |mem| && !(dst <= i < dst + (m + 3) / 4) ==> mem'[i] == mem[i]
  }

  lemma CopiedByte(mem: seq<int>, mem': seq<int>, dst: int, src: int, m: int, b: int)
    requires 0 <= dst && 0 <= src && dst + (m + 3) / 4 <= |mem| && src + (m + 3) / 4 <= |mem|
    requires 0 <= b < m && Copied(mem, mem', dst, src, m)
    ensures ByteAt(mem', dst, b) == ByteAt(mem, src, b)
  {
    if b / 4 == m / 4 {
      MergedByte(mem[dst + m / 4], mem[src + m / 4], m % 4, b % 4);
    }
  }
}

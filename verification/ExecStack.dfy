/** The argument stack that exec builds for the new program, and how the program reads it back. */
module ExecStack {
  import opened Bytes

  /** Where the stack ends. */
  const TOP: int := 0xEFFF_E000

  // ---------------------------------------------------------------- C strings

  /** Length of the C string at the start of `s`. */
  function StrLen(s: seq<byte>): (n: int)
    requires 0 in s
    ensures 0 <= n < |s|
  {
    if s[0] == 0 then 0 else 1 + StrLen(s[1..])
  }

  lemma {:induction false} StrLenIs(s: seq<byte>)
    requires 0 in s
    ensures s[StrLen(s)] == 0 && forall j :: 0 <= j < StrLen(s) ==> s[j] != 0
  {
    if s[0] != 0 { StrLenIs(s[1..]); }
  }

  function CStr(s: seq<byte>): seq<byte>
    requires 0 in s
  {
    s[..StrLen(s)]
  }

  /** Two strings with the same bytes up to and including a terminator are the same C string. */
  lemma SameCStr(s: seq<byte>, t: seq<byte>, n: int)
    requires 0 in s && StrLen(s) == n && n < |t| && t[..n + 1] == s[..n + 1]
    ensures 0 in t && CStr(t) == CStr(s)
  {
    StrLenIs(s);
    assert t[..n + 1][n] == 0;
    assert t[n] == 0;
    var m := StrLen(t);
    StrLenIs(t);
    assert forall j :: 0 <= j <= n ==> t[j] == t[..n + 1][j] && s[j] == s[..n + 1][j];
    assert m == n;
  }

  /** The next multiple of four. */
  function RoundUp(n: int): (r: int)
    ensures n <= r <= n + 3
  {
    n + (4 - n % 4) % 4
  }

  lemma RoundUpAligned(n: int)
    ensures RoundUp(n) % 4 == 0
  {
    var q, r := n / 4, n % 4;
    assert n == 4 * q + r;
    assert RoundUp(n) == if r == 0 then 4 * q else 4 * (q + 1);
  }

  /** The room a string takes: its bytes and terminator, rounded up to whole words. */
  function Padded(s: seq<byte>): (n: int)
    requires 0 in s
    ensures StrLen(s) < n <= StrLen(s) + 4
  {
    RoundUp(StrLen(s) + 1)
  }

  lemma PaddedAligned(s: seq<byte>)
    requires 0 in s
    ensures Padded(s) % 4 == 0
  {
    RoundUpAligned(StrLen(s) + 1);
  }

  lemma WordsAdd(a: int, b: int)
    requires a % 4 == 0 && b % 4 == 0
    ensures (a + b) % 4 == 0
  {
  }

  // ---------------------------------------------------------------- layout

  /** The memory at each argument pointer: a terminated string, readable up to its padded length. */
  ghost predicate Readable(src: seq<seq<byte>>) {
    forall i {:trigger src[i]} :: 0 <= i < |src| ==> 0 in src[i] && Padded(src[i]) <= |src[i]|
  }

  /** Offset of string `i` from the stack pointer; for i == |src|, the size of the whole image. */
  function StrOff(src: seq<seq<byte>>, i: int): (o: int)
    requires Readable(src) && 0 <= i <= |src|
    ensures 12 + 4 * |src| <= o
  {
    if i == 0 then 12 + 4 * |src| else StrOff(src, i - 1) + Padded(src[i - 1])
  }

  function Total(src: seq<seq<byte>>): int
    requires Readable(src)
  {
    StrOff(src, |src|)
  }

  /** Every string starts on a word boundary of the image. */
  lemma {:induction false} StringsAligned(src: seq<seq<byte>>, i: int)
    requires Readable(src) && 0 <= i <= |src|
    ensures StrOff(src, i) % 4 == 0
    decreases i
  {
    if i == 0 {
      WordsAdd(12, 4 * |src|);
    } else {
      StringsAligned(src, i - 1);
      PaddedAligned(src[i - 1]);
      WordsAdd(StrOff(src, i - 1), Padded(src[i - 1]));
    }
  }

  /** The parts tile the image: three words and the pointers, then the strings, each in its padded room. */
  lemma PartsTile(src: seq<seq<byte>>, i: int)
    requires Readable(src) && 0 <= i < |src|
    ensures StrOff(src, 0) == 12 + 4 * |src| && StrOff(src, i + 1) == StrOff(src, i) + Padded(src[i])
    ensures StrOff(src, |src|) == Total(src)
    ensures StrLen(src[i]) + 1 <= Padded(src[i]) < StrLen(src[i]) + 5 && Padded(src[i]) % 4 == 0
  {
    PaddedAligned(src[i]);
  }

  /** Strings are laid out one after the other without overlap. */
  lemma {:induction false} StringsInOrder(src: seq<seq<byte>>, i: int, j: int)
    requires Readable(src) && 0 <= i < j <= |src|
    ensures StrOff(src, i) + Padded(src[i]) <= StrOff(src, j)
    decreases j
  {
    if i + 1 < j { StringsInOrder(src, i, j - 1); }
  }

  /** Pointer and string of argument `i`, in an image that starts at offset `o` and address `sp`. */
  ghost predicate ArgOk(mem: seq<byte>, o: int, sp: int, src: seq<seq<byte>>, i: int)
    requires Readable(src) && 0 <= i < |src| && 0 <= o && o + Total(src) == |mem|
  {
    StringsInOrder(src, i, |src|);
    var n := StrLen(src[i]) + 1;
    && WordAt(mem, o + 8 + 4 * i) == sp + StrOff(src, i)
    && mem[o + StrOff(src, i)..o + StrOff(src, i) + n] == src[i][..n]
  }

  /** The finished image: count, vector address, pointers, null, strings, exactly up to the top. */
  ghost predicate Image(mem: seq<byte>, o: int, sp: int, src: seq<seq<byte>>)
    requires Readable(src) && 0 <= o && o + Total(src) == |mem|
  {
    && WordAt(mem, o) == |src| && WordAt(mem, o + 4) == sp + 8
    && WordAt(mem, o + 8 + 4 * |src|) == 0
    && forall i {:trigger ArgOk(mem, o, sp, src, i)} :: 0 <= i < |src| ==> ArgOk(mem, o, sp, src, i)
  }

  // ---------------------------------------------------------------- reading back

  /** What the new program sees at address `p`: the C string there, if memory holds one. */
  predicate StringAt(mem: seq<byte>, base: int, p: int, arg: seq<byte>) {
    0 <= p - base <= |mem| && 0 in mem[p - base..] && CStr(mem[p - base..]) == arg
  }

  /** Entry `i` of the vector at offset `v` is an aligned pointer to the C string `arg`. */
  ghost predicate Reads(mem: seq<byte>, base: int, v: int, i: int, arg: seq<byte>)
    requires 0 <= v && 0 <= i && v + 4 * i + 4 <= |mem|
  {
    WordAt(mem, v + 4 * i) % 4 == 0 && StringAt(mem, base, WordAt(mem, v + 4 * i), arg)
  }

  /** Following argc and argv from the stack pointer yields the original arguments, each word-aligned. */
  lemma ReadsBack(mem: seq<byte>, o: int, sp: int, src: seq<seq<byte>>)
    requires Readable(src) && 0 <= o && o + Total(src) == |mem| && sp + Total(src) == TOP && Image(mem, o, sp, src)
    ensures WordAt(mem, o) == |src| && WordAt(mem, o + 4) == sp + 8
    ensures WordAt(mem, o + 8 + 4 * |src|) == 0
    ensures forall i {:trigger CStr(src[i])} :: 0 <= i < |src| ==> Reads(mem, sp - o, o + 8, i, CStr(src[i]))
  {
    forall i | 0 <= i < |src| ensures Reads(mem, sp - o, o + 8, i, CStr(src[i])) {
      ArgReadsBack(mem, o, sp, src, i);
    }
  }

  lemma ArgReadsBack(mem: seq<byte>, o: int, sp: int, src: seq<seq<byte>>, i: int)
    requires Readable(src) && 0 <= o && o + Total(src) == |mem| && sp + Total(src) == TOP && Image(mem, o, sp, src)
    requires 0 <= i < |src|
    ensures Reads(mem, sp - o, o + 8, i, CStr(src[i]))
  {
    assert ArgOk(mem, o, sp, src, i);
    StringsInOrder(src, i, |src|);
    var a := o + StrOff(src, i);
    ArgAligned(sp, src, i);
    assert WordAt(mem, o + 8 + 4 * i) == sp - o + a;
    StringInPlace(mem, a, src[i]);
  }

  lemma ArgAligned(sp: int, src: seq<seq<byte>>, i: int)
    requires Readable(src) && 0 <= i < |src| && sp + Total(src) == TOP
    ensures (sp + StrOff(src, i)) % 4 == 0
  {
    StringsAligned(src, i);
    StringsAligned(src, |src|);
    Aligned(sp, Total(src), StrOff(src, i));
  }

  lemma Aligned(sp: int, total: int, off: int)
    requires sp + total == TOP && total % 4 == 0 && off % 4 == 0
    ensures (sp + off) % 4 == 0
  {
  }

  lemma StringInPlace(mem: seq<byte>, a: int, s: seq<byte>)
    requires 0 in s && 0 <= a && a + StrLen(s) + 1 <= |mem| && mem[a..a + (StrLen(s) + 1)] == s[..StrLen(s) + 1]
    ensures 0 in mem[a..] && CStr(mem[a..]) == CStr(s)
  {
    var t, n := mem[a..], StrLen(s);
    assert t[..n + 1] == mem[a..a + (n + 1)];
    SameCStr(s, t, n);
  }

  // ---------------------------------------------------------------- building

  /** Bytes outside [o, o + n) are as before. */
  ghost predicate Only(mem: seq<byte>, mem': seq<byte>, o: int, n: int) {
    |mem'| == |mem| && forall j {:trigger mem'[j]} :: 0 <= j < |mem| && !(o <= j < o + n) ==> mem'[j] == mem[j]
  }

  lemma WordKept(mem: seq<byte>, mem': seq<byte>, o: int, n: int, w: int)
    requires Only(mem, mem', o, n) && 0 <= w && w + 4 <= |mem| && (w + 4 <= o || o + n <= w)
    ensures WordAt(mem', w) == WordAt(mem, w)
  {
    assert mem'[w] == mem[w] && mem'[w + 1] == mem[w + 1] && mem'[w + 2] == mem[w + 2] && mem'[w + 3] == mem[w + 3];
  }

  lemma SliceKept(mem: seq<byte>, mem': seq<byte>, o: int, n: int, a: int, len: int)
    requires Only(mem, mem', o, n) && 0 <= a && 0 <= len && a + len <= |mem| && (a + len <= o || o + n <= a)
    ensures mem'[a..a + len] == mem[a..a + len]
  {
  }

  lemma ArgKept(mem: seq<byte>, mem': seq<byte>, b: int, n: int, o: int, sp: int, src: seq<seq<byte>>, i: int)
    requires Readable(src) && 0 <= i < |src| && 0 <= o && o + Total(src) == |mem| && Only(mem, mem', b, n)
    requires ArgOk(mem, o, sp, src, i)
    requires o + 12 + 4 * i <= b || b + n <= o + 8 + 4 * i
    requires o + StrOff(src, i) + Padded(src[i]) <= b || b + n <= o + StrOff(src, i)
    ensures ArgOk(mem', o, sp, src, i)
  {
    StringsInOrder(src, i, |src|);
    WordKept(mem, mem', b, n, o + 8 + 4 * i);
    SliceKept(mem, mem', b, n, o + StrOff(src, i), StrLen(src[i]) + 1);
  }

  method PutWord(m: array<byte>, o: int, v: int)
    requires 0 <= o && o + 4 <= m.Length && 0 <= v < WORD_MAX
    modifies m
    ensures WordAt(m[..], o) == v && Only(old(m[..]), m[..], o, 4)
  {
    ByteRange(v, 0);
    ByteRange(v, 1);
    ByteRange(v, 2);
    ByteRange(v, 3);
    m[o], m[o + 1], m[o + 2], m[o + 3] := ByteOf(v, 0), ByteOf(v, 1), ByteOf(v, 2), ByteOf(v, 3);
    UnpackedPacks(v);
  }

  /** memcpy of the padded length, then the terminator again. */
  method PutString(m: array<byte>, o: int, s: seq<byte>, length: int)
    requires 0 in s && length == Padded(s) && length <= |s| && 0 <= o && o + length <= m.Length
    modifies m
    ensures m[..][o..o + (StrLen(s) + 1)] == s[..StrLen(s) + 1] && Only(old(m[..]), m[..], o, length)
  {
    forall j | 0 <= j < length { m[o + j] := s[j]; }
    StrLenIs(s);
    m[o + StrLen(s)] := 0;
  }

  /** The lengths loop. */
  method Measure(src: seq<seq<byte>>) returns (lengths: seq<int>, total: int)
    requires Readable(src)
    ensures |lengths| == |src| && total == Total(src)
    ensures forall i :: 0 <= i < |src| ==> lengths[i] == Padded(src[i])
  {
    total := 12 + 4 * |src|;
    lengths := [];
    var i := 0;
    while i < |src|
      invariant 0 <= i <= |src| && |lengths| == i && total == StrOff(src, i)
      invariant forall j :: 0 <= j < i ==> lengths[j] == Padded(src[j])
    {
      var n := RoundUp(StrLen(src[i]) + 1);
      lengths := lengths + [n];
      total := total + n;
      i := i + 1;
    }
  }

  /** The image under construction: the header and the first `i` arguments are in place. */
  ghost predicate Partial(mem: seq<byte>, o: int, sp: int, src: seq<seq<byte>>, i: int)
    requires Readable(src) && 0 <= o && o + Total(src) == |mem| && 0 <= i <= |src|
  {
    && WordAt(mem, o) == |src| && WordAt(mem, o + 4) == sp + 8
    && forall j {:trigger ArgOk(mem, o, sp, src, j)} :: 0 <= j < i ==> ArgOk(mem, o, sp, src, j)
  }

  /** Writes behind the header and clear of the first `i` arguments keep them. */
  lemma PartialKept(mem: seq<byte>, mem': seq<byte>, b: int, n: int, o: int, sp: int, src: seq<seq<byte>>, i: int)
    requires Readable(src) && 0 <= o && o + Total(src) == |mem| && 0 <= i < |src| && Partial(mem, o, sp, src, i)
    requires Only(mem, mem', b, n)
    requires (b == o + 8 + 4 * i && n == 4) || (b == o + StrOff(src, i) && n == Padded(src[i]))
    ensures Partial(mem', o, sp, src, i)
  {
    WordKept(mem, mem', b, n, o);
    WordKept(mem, mem', b, n, o + 4);
    forall j | 0 <= j < i ensures ArgOk(mem', o, sp, src, j) {
      assert ArgOk(mem, o, sp, src, j);
      StringsInOrder(src, j, i);
      ArgKept(mem, mem', b, n, o, sp, src, j);
    }
  }

  lemma ArgAdded(mem1: seq<byte>, mem2: seq<byte>, o: int, sp: int, src: seq<seq<byte>>, i: int)
    requires Readable(src) && 0 <= o && o + Total(src) == |mem1| && 0 <= i < |src|
    requires WordAt(mem1, o + 8 + 4 * i) == sp + StrOff(src, i)
    requires Only(mem1, mem2, o + StrOff(src, i), Padded(src[i])) && o + StrOff(src, i) + Padded(src[i]) <= |mem1|
    requires mem2[o + StrOff(src, i)..o + StrOff(src, i) + (StrLen(src[i]) + 1)] == src[i][..StrLen(src[i]) + 1]
    ensures ArgOk(mem2, o, sp, src, i)
  {
    WordKept(mem1, mem2, o + StrOff(src, i), Padded(src[i]), o + 8 + 4 * i);
  }

  lemma NullAdded(mem0: seq<byte>, mem1: seq<byte>, o: int, sp: int, src: seq<seq<byte>>)
    requires Readable(src) && 0 <= o && o + Total(src) == |mem0| && Partial(mem0, o, sp, src, |src|)
    requires Only(mem0, mem1, o + 8 + 4 * |src|, 4) && WordAt(mem1, o + 8 + 4 * |src|) == 0
    ensures Image(mem1, o, sp, src)
  {
    var b := o + 8 + 4 * |src|;
    WordKept(mem0, mem1, b, 4, o);
    WordKept(mem0, mem1, b, 4, o + 4);
    forall j | 0 <= j < |src| ensures ArgOk(mem1, o, sp, src, j) {
      assert ArgOk(mem0, o, sp, src, j);
      ArgKept(mem0, mem1, b, 4, o, sp, src, j);
    }
  }

  /** One round of the copy loop: pointer and string of argument `i`. */
  method PutArg(src: seq<seq<byte>>, m: array<byte>, o: int, sp: int, i: int, val: int, length: int)
    requires Readable(src) && 0 <= o && o + Total(src) == m.Length && 0 <= i < |src| && 0 <= sp &&
               sp + Total(src) < WORD_MAX
    requires val == StrOff(src, i) && length == Padded(src[i]) && Partial(m[..], o, sp, src, i)
    modifies m
    ensures Partial(m[..], o, sp, src, i + 1) && m[..][..o] == old(m[..][..o])
  {
    ghost var a := m[..];
    ArgRoom(src, i);
    PutPointer(src, m, o, sp, i, val);
    ghost var b := m[..];
    PutString(m, o + val, src[i], length);
    ArgStep(b, m[..], o, sp, src, i);
    assert m[..][..o] == b[..o] == a[..o];
  }

  lemma ArgRoom(src: seq<seq<byte>>, i: int)
    requires Readable(src) && 0 <= i < |src|
    ensures 0 in src[i] && Padded(src[i]) <= |src[i]| && 0 <= StrOff(src, i) + Padded(src[i]) <= Total(src)
  {
    StringsInOrder(src, i, |src|);
  }

  lemma ArgStep(mem1: seq<byte>, mem2: seq<byte>, o: int, sp: int, src: seq<seq<byte>>, i: int)
    requires Readable(src) && 0 <= o && o + Total(src) == |mem1| && 0 <= i < |src| && Partial(mem1, o, sp, src, i)
    requires WordAt(mem1, o + 8 + 4 * i) == sp + StrOff(src, i)
    requires Only(mem1, mem2, o + StrOff(src, i), Padded(src[i])) && o + StrOff(src, i) + Padded(src[i]) <= |mem1|
    requires mem2[o + StrOff(src, i)..o + StrOff(src, i) + (StrLen(src[i]) + 1)] == src[i][..StrLen(src[i]) + 1]
    ensures Partial(mem2, o, sp, src, i + 1) && mem2[..o] == mem1[..o]
  {
    PartialKept(mem1, mem2, o + StrOff(src, i), Padded(src[i]), o, sp, src, i);
    ArgAdded(mem1, mem2, o, sp, src, i);
    PartialExtends(mem2, o, sp, src, i);
    PrefixKept(mem1, mem2, o + StrOff(src, i), Padded(src[i]), o);
  }

  lemma PartialExtends(mem: seq<byte>, o: int, sp: int, src: seq<seq<byte>>, i: int)
    requires Readable(src) && 0 <= o && o + Total(src) == |mem| && 0 <= i < |src|
    requires Partial(mem, o, sp, src, i) && ArgOk(mem, o, sp, src, i)
    ensures Partial(mem, o, sp, src, i + 1)
  {
  }

  lemma PrefixKept(mem: seq<byte>, mem': seq<byte>, b: int, n: int, o: int)
    requires Only(mem, mem', b, n) && 0 <= o <= b && o <= |mem|
    ensures mem'[..o] == mem[..o]
  {
    forall j | 0 <= j < o ensures mem'[j] == mem[j] {
    }
  }

  method PutPointer(src: seq<seq<byte>>, m: array<byte>, o: int, sp: int, i: int, val: int)
    requires Readable(src) && 0 <= o && o + Total(src) == m.Length && 0 <= i < |src| && 0 <= sp &&
               sp + Total(src) < WORD_MAX
    requires val == StrOff(src, i) && val <= Total(src) && Partial(m[..], o, sp, src, i)
    modifies m
    ensures Partial(m[..], o, sp, src, i) && WordAt(m[..], o + 8 + 4 * i) == sp + val && m[..][..o] == old(m[..][..o])
  {
    ghost var a := m[..];
    PutWord(m, o + 8 + 4 * i, sp + val);
    PartialKept(a, m[..], o + 8 + 4 * i, 4, o, sp, src, i);
    PrefixKept(a, m[..], o + 8 + 4 * i, 4, o);
  }

  /** argc and the address of the vector. */
  method PutHeader(src: seq<seq<byte>>, m: array<byte>, o: int, sp: int)
    requires Readable(src) && 0 <= o && o + Total(src) == m.Length && 0 <= sp && sp + Total(src) < WORD_MAX
    modifies m
    ensures Partial(m[..], o, sp, src, 0) && m[..][..o] == old(m[..][..o])
  {
    ghost var m0 := m[..];
    PutWord(m, o, |src|);
    ghost var m1 := m[..];
    PutWord(m, o + 4, sp + 8);
    WordKept(m1, m[..], o + 4, 4, o);
    PrefixKept(m0, m1, o, 4, o);
    PrefixKept(m1, m[..], o + 4, 4, o);
  }

  /** Builds the image at the end of the stack `m`, which ends at TOP; returns the stack pointer. */
  method Build(src: seq<seq<byte>>, m: array<byte>) returns (sp: int)
    requires Readable(src) && Total(src) <= m.Length <= TOP
    modifies m
    ensures sp + Total(src) == 0xEFFF_E000
    ensures Image(m[..], m.Length - Total(src), sp, src)
    ensures m[..][..m.Length - Total(src)] == old(m[..][..m.Length - Total(src)])
  {
    var lengths, total := Measure(src);
    sp := TOP - total;
    var o := m.Length - total;
    PutHeader(src, m, o, sp);
    var val := 8 + 4 * (|src| + 1);
    var i := 0;
    while i < |src|
      invariant 0 <= i <= |src| && val == StrOff(src, i) && Partial(m[..], o, sp, src, i)
      invariant m[..][..o] == old(m[..][..o])
    {
      PutArg(src, m, o, sp, i, val, lengths[i]);
      val := val + lengths[i];
      i := i + 1;
    }
    ghost var a := m[..];
    PutWord(m, o + 8 + 4 * |src|, 0);
    NullAdded(a, m[..], o, sp, src);
    PrefixKept(a, m[..], o + 8 + 4 * |src|, 4, o);
  }
}

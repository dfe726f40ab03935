/**
 * The byte-buffer routines of the embedded runtime: `memcpy`, `memmove`,
 * `memset` and `memcmp` (ISO C11 sections 7.24.2.1, 7.24.2.2, 7.24.6.1 and
 * 7.24.4.1). Memory is one array of bytes and a pointer is an index into
 * it, so that alignment and overlap can be stated. `tests/libmem.c` copies
 * byte by byte; `tests/lib/libmem.c` has the same `memset`, `memcmp` and
 * `memmove`, and a `memcpy` that copies whole words when the two buffers
 * share an alignment.
 */
module LibMem {
  import opened Arith

  /**
   * Bytes `[dest + lo, dest + hi)` of `m` hold the bytes of `m0` at the same
   * offsets from `src`; every other byte is as in `m0`.
   */
  ghost predicate CopiedRange(mem: array<byte>, m0: seq<byte>, dest: nat, src: nat, lo: nat, hi: nat)
    reads mem
  {
    mem.Length == |m0| && lo <= hi && dest + hi <= |m0| && src + hi <= |m0| &&
    forall k {:trigger mem[k]} :: 0 <= k < mem.Length ==> mem[k] == if dest + lo <= k < dest + hi then m0[src + (k - dest)] else m0[k]
  }

  /** The two byte ranges share no address. */
  predicate Disjoint(dest: nat, src: nat, n: nat) {
    dest + n <= src || src + n <= dest
  }

  /**
   * The forward byte loop: `memcpy` in `tests/libmem.c`, the fallback of the
   * word-wise `memcpy` and the `dest <= src` branch of both `memmove`s.
   * Copying upward is right whenever the destination does not start inside
   * the source, overlapping or not.
   */
  method CopyForward(mem: array<byte>, dest: nat, src: nat, n: nat)
    requires dest + n <= mem.Length && src + n <= mem.Length
    requires dest <= src || Disjoint(dest, src, n)
    modifies mem
    ensures mem[dest..dest + n] == old(mem[src..src + n])
    ensures forall k :: 0 <= k < mem.Length && !(dest <= k < dest + n) ==> mem[k] == old(mem[k])
  {
    ghost var m0 := mem[..];
    var i := 0;
    while i < n
      invariant i <= n
      invariant CopiedRange(mem, m0, dest, src, 0, i)
    {
      assert !(dest <= src + i < dest + i);
      assert mem[src + i] == m0[src + i];
      mem[dest + i] := mem[src + i];
      i := i + 1;
    }
    CopiedSlice(mem, m0, dest, src, n);
  }

  /**
   * The backward loop the `dest > src` branch of `memmove` means to run:
   * copying downward from the top is right when the destination starts
   * inside the source.
   */
  method CopyBackward(mem: array<byte>, dest: nat, src: nat, n: nat)
    requires dest + n <= mem.Length && src + n <= mem.Length
    requires src <= dest
    modifies mem
    ensures mem[dest..dest + n] == old(mem[src..src + n])
    ensures forall k :: 0 <= k < mem.Length && !(dest <= k < dest + n) ==> mem[k] == old(mem[k])
  {
    ghost var m0 := mem[..];
    var i: nat := n;
    while i > 0
      invariant i <= n
      invariant CopiedRange(mem, m0, dest, src, i, n)
    {
      i := i - 1;
      mem[dest + i] := mem[src + i];
    }
    CopiedSlice(mem, m0, dest, src, n);
  }

  /** A range copied in full reads as the source slice. */
  lemma CopiedSlice(mem: array<byte>, m0: seq<byte>, dest: nat, src: nat, n: nat)
    requires CopiedRange(mem, m0, dest, src, 0, n)
    ensures mem[dest..dest + n] == m0[src..src + n]
  {
    assert forall j :: dest <= j < dest + n ==> mem[j] == m0[src + (j - dest)];
  }

  /** `memcpy` of `tests/libmem.c`: copy `n` bytes upward; the result is `dest`. */
  method Memcpy(mem: array<byte>, dest: nat, src: nat, n: nat) returns (r: nat)
    requires dest + n <= mem.Length && src + n <= mem.Length
    requires Disjoint(dest, src, n)
    modifies mem
    ensures r == dest
    ensures mem[dest..dest + n] == old(mem[src..src + n])
    ensures forall k :: 0 <= k < mem.Length && !(dest <= k < dest + n) ==> mem[k] == old(mem[k])
  {
    CopyForward(mem, dest, src, n);
    r := dest;
  }

  /** Whether the word-wise `memcpy` copies whole words. */
  predicate WordPath(dest: nat, src: nat, n: nat) {
    dest % 4 == src % 4 && n > 8
  }

  /**
   * `memcpy` of `tests/lib/libmem.c`: whole words when both pointers have
   * the same offset in a word and more than eight bytes are asked for,
   * bytes otherwise. Both paths write exactly `dest[0..n)`.
   */
  method AlignedMemcpy(mem: array<byte>, dest: nat, src: nat, n: nat) returns (r: nat)
    requires dest + n <= mem.Length && src + n <= mem.Length
    requires Disjoint(dest, src, n)
    modifies mem
    ensures r == dest
    ensures mem[dest..dest + n] == old(mem[src..src + n])
    ensures forall k :: 0 <= k < mem.Length && !(dest <= k < dest + n) ==> mem[k] == old(mem[k])
  {
    if WordPath(dest, src, n) {
      CopyWords(mem, dest, src, n);
    } else {
      CopyForward(mem, dest, src, n);
    }
    r := dest;
  }

  /**
   * The word path: the bytes from `dest` up to the next word boundary (the
   * `switch` falls through from the offset to 3), then whole words from the
   * second word of the aligned base, then the 0-3 bytes past the last whole
   * word.
   */
  method CopyWords(mem: array<byte>, dest: nat, src: nat, n: nat)
    requires dest + n <= mem.Length && src + n <= mem.Length
    requires Disjoint(dest, src, n) && WordPath(dest, src, n)
    modifies mem
    ensures mem[dest..dest + n] == old(mem[src..src + n])
    ensures forall k :: 0 <= k < mem.Length && !(dest <= k < dest + n) ==> mem[k] == old(mem[k])
  {
    ghost var m0 := mem[..];
    var unaligned := dest % 4;
    assert CopiedRange(mem, m0, dest, src, 0, 0);
    // Byte k of the aligned base is byte k - unaligned of dest.
    if unaligned <= 0 {
      StoreByte(mem, m0, dest, src, n, 0);
    }
    if unaligned <= 1 {
      StoreByte(mem, m0, dest, src, n, 1 - unaligned);
    }
    if unaligned <= 2 {
      StoreByte(mem, m0, dest, src, n, 2 - unaligned);
    }
    if unaligned <= 3 {
      StoreByte(mem, m0, dest, src, n, 3 - unaligned);
    }
    var nOffset := n + unaligned;
    var nAligned := nOffset - nOffset % 4;
    var words := nAligned / 4;
    var i := 1;
    while i < words
      invariant 1 <= i <= words && 4 * words == nAligned
      invariant CopiedRange(mem, m0, dest, src, 0, 4 * i - unaligned)
    {
      StoreWord(mem, m0, dest, src, n, 4 * i - unaligned);
      i := i + 1;
    }
    i := nAligned;
    while i < nOffset
      invariant nAligned <= i <= nOffset
      invariant CopiedRange(mem, m0, dest, src, 0, i - unaligned)
    {
      StoreByte(mem, m0, dest, src, n, i - unaligned);
      i := i + 1;
    }
    CopiedSlice(mem, m0, dest, src, n);
  }

  /**
   * One `char` store of a copy: byte `len` of the source goes to byte `len`
   * of the destination, extending the copied prefix by one.
   */
  method StoreByte(mem: array<byte>, ghost m0: seq<byte>, dest: nat, src: nat, n: nat, len: nat)
    requires len < n && dest + n <= mem.Length && src + n <= mem.Length && Disjoint(dest, src, n)
    requires CopiedRange(mem, m0, dest, src, 0, len)
    modifies mem
    ensures CopiedRange(mem, m0, dest, src, 0, len + 1)
  {
    assert mem[src + len] == m0[src + len];
    mem[dest + len] := mem[src + len];
  }

  /**
   * One aligned `int` store of a copy: four bytes at once, extending the
   * copied prefix by a word.
   */
  method StoreWord(mem: array<byte>, ghost m0: seq<byte>, dest: nat, src: nat, n: nat, len: nat)
    requires len + 4 <= n && dest + n <= mem.Length && src + n <= mem.Length && Disjoint(dest, src, n)
    requires CopiedRange(mem, m0, dest, src, 0, len)
    modifies mem
    ensures CopiedRange(mem, m0, dest, src, 0, len + 4)
  {
    forall k | 0 <= k < 4 {
      mem[dest + len + k] := mem[src + len + k];
    }
  }

  /**
   * `memmove` with the backward branch as its comment describes it: copy
   * downward when `dest` lies above `src`, upward otherwise, so that the
   * destination ends with the original source bytes even when the two
   * overlap.
   */
  method Memmove(mem: array<byte>, dest: nat, src: nat, n: nat) returns (r: nat)
    requires dest + n <= mem.Length && src + n <= mem.Length
    modifies mem
    ensures r == dest
    ensures mem[dest..dest + n] == old(mem[src..src + n])
    ensures forall k :: 0 <= k < mem.Length && !(dest <= k < dest + n) ==> mem[k] == old(mem[k])
  {
    if dest > src {
      CopyBackward(mem, dest, src, n);
    } else {
      CopyForward(mem, dest, src, n);
    }
    r := dest;
  }

  /** The `size_t` value of an integer: its residue modulo 2^32. */
  function SizeT(x: int): (r: nat)
    ensures r < 0x1_0000_0000
    ensures 0 <= x < 0x1_0000_0000 ==> r == x
  {
    x % 0x1_0000_0000
  }

  /**
   * The index the backward loop of `memmove` writes on its `t`-th pass as
   * written: it starts at `n - 1` as a `size_t` and moves by `step`, -1 in
   * `tests/libmem.c` and +1 in `tests/lib/libmem.c`. Its guard `i >= 0`
   * holds for every `size_t`, so every pass happens.
   */
  function BackwardIndex(n: nat, step: int, t: nat): (r: nat)
    ensures r < 0x1_0000_0000
  {
    SizeT(n - 1 + t * step)
  }

  /**
   * The backward loops leave the buffer: counting down, the pass after
   * index 0 writes index `0xFFFFFFFF`; counting up, the second pass writes
   * index `n`, one past the end; and for `n == 0` the first pass already
   * writes index `0xFFFFFFFF`.
   */
  lemma BackwardLoopOverruns(n: nat)
    requires 1 <= n < 0x1_0000_0000
    ensures BackwardIndex(n, -1, n - 1) == 0 && BackwardIndex(n, -1, n) == 0xFFFF_FFFF
    ensures BackwardIndex(n, 1, 1) == n
    ensures BackwardIndex(0, -1, 0) == 0xFFFF_FFFF
  {
    DivModUnique(-1, 0x1_0000_0000, -1, 0xFFFF_FFFF);
  }

  /** `(char)c`: the low eight bits of an `int`. */
  function ByteOf(c: int): (b: byte)
    ensures b == c % 0x100
    ensures 0 <= c < 0x100 ==> b == c
  {
    c % 0x100
  }

  /** `memset`: the first `n` bytes at `s` become `(char)c`; the result is `s`. */
  method Memset(mem: array<byte>, s: nat, c: int, n: nat) returns (r: nat)
    requires s + n <= mem.Length
    modifies mem
    ensures r == s
    ensures forall k :: s <= k < s + n ==> mem[k] == ByteOf(c)
    ensures forall k :: 0 <= k < mem.Length && !(s <= k < s + n) ==> mem[k] == old(mem[k])
  {
    var i := 0;
    while i < n
      invariant i <= n
      invariant forall k :: s <= k < s + i ==> mem[k] == ByteOf(c)
      invariant forall k :: 0 <= k < mem.Length && !(s <= k < s + i) ==> mem[k] == old(mem[k])
    {
      mem[s + i] := ByteOf(c);
      i := i + 1;
    }
    r := s;
  }

  /**
   * The difference of two bytes as `unsigned char`: `a - b` modulo 256.
   * It is zero exactly when the bytes are equal.
   */
  function Diff(a: byte, b: byte): (r: int)
    ensures 0 <= r < 0x100
    ensures r == 0 <==> a == b
    ensures a > b ==> r == a - b
    ensures a < b ==> r == 0x100 + a - b
  {
    (a - b) % 0x100
  }

  /**
   * What `memcmp` returns for the bytes from index `i` on: the difference
   * at the first position where they differ, 0 when none does.
   */
  function CompareFrom(a: seq<byte>, b: seq<byte>, i: nat): (r: int)
    requires |a| == |b| && i <= |a|
    ensures 0 <= r < 0x100
    ensures r == 0 <==> a[i..] == b[i..]
    decreases |a| - i
  {
    if i == |a| then 0
    else if a[i] != b[i] then
      assert a[i..][0] != b[i..][0];
      Diff(a[i], b[i])
    else
      assert a[i..] == [a[i]] + a[i + 1..] && b[i..] == [b[i]] + b[i + 1..];
      CompareFrom(a, b, i + 1)
  }

  function Compare(a: seq<byte>, b: seq<byte>): (r: int)
    requires |a| == |b|
  {
    CompareFrom(a, b, 0)
  }

  /**
   * `memcmp` returns 0 exactly when the buffers are equal; otherwise the
   * `unsigned char` difference of the first differing pair, a value in
   * 1..255 and never negative, whichever buffer is greater.
   */
  lemma {:induction false} CompareFirstDifference(a: seq<byte>, b: seq<byte>, i: nat)
    requires |a| == |b| && i < |a| && a[..i] == b[..i] && a[i] != b[i]
    ensures Compare(a, b) == Diff(a[i], b[i])
    ensures 1 <= Compare(a, b) < 0x100
  {
    CompareSkips(a, b, 0, i);
  }

  lemma {:induction false} CompareSkips(a: seq<byte>, b: seq<byte>, j: nat, i: nat)
    requires |a| == |b| && j <= i < |a| && a[..i] == b[..i]
    ensures CompareFrom(a, b, j) == CompareFrom(a, b, i)
    decreases i - j
  {
    if j < i {
      assert a[j] == a[..i][j] && b[j] == b[..i][j];
      CompareSkips(a, b, j + 1, i);
    }
  }

  lemma CompareZero(a: seq<byte>, b: seq<byte>)
    requires |a| == |b|
    ensures Compare(a, b) == 0 <==> a == b
    ensures 0 <= Compare(a, b) < 0x100
  {
    assert a[0..] == a && b[0..] == b;
  }

  /**
   * Unlike ISO C11, a lesser first buffer does not give a negative result:
   * the difference wraps to `256 - (b[i] - a[i])`, so `[1]` against `[2]`
   * gives 255.
   */
  lemma CompareNotSigned(a: seq<byte>, b: seq<byte>, i: nat)
    requires |a| == |b| && i < |a| && a[..i] == b[..i] && a[i] < b[i]
    ensures Compare(a, b) == 0x100 - (b[i] as int - a[i] as int)
    ensures Compare(a, b) > 0
    ensures Compare([1], [2]) == 0xFF
  {
    CompareFirstDifference(a, b, i);
    CompareFirstDifference([1], [2], 0);
  }

  /** `memcmp`: scan both buffers and return at the first difference. */
  method Memcmp(mem: array<byte>, s1: nat, s2: nat, n: nat) returns (r: int)
    requires s1 + n <= mem.Length && s2 + n <= mem.Length
    ensures r == Compare(mem[s1..s1 + n], mem[s2..s2 + n])
  {
    ghost var a := mem[s1..s1 + n];
    ghost var b := mem[s2..s2 + n];
    var i := 0;
    while i < n
      invariant i <= n
      invariant a[..i] == b[..i]
    {
      var diff := Diff(mem[s1 + i], mem[s2 + i]);
      if diff != 0 {
        assert a[i] == mem[s1 + i] && b[i] == mem[s2 + i];
        CompareFirstDifference(a, b, i);
        return diff;
      }
      assert a[..i + 1] == a[..i] + [a[i]] && b[..i + 1] == b[..i] + [b[i]];
      i := i + 1;
    }
    assert a == a[..n] && b == b[..n];
    CompareZero(a, b);
    r := 0;
  }
}

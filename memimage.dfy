/**
 * Memory images for Verilog `$readmemh` (IEEE 1800-2017, section 21.4):
 * bytes packed four to a line as one little-endian 32-bit word in lower-case
 * hex, most significant byte first. Three converters do this packing:
 * `convert_hex` in `util.py`, `convert` in `tests/scripts/hex_converter.py`
 * and the top-level loop of `tests/hex_converter.py`. They differ in the
 * trailing partial word and in the count they return. The lines are kept
 * without their `"\n"`.
 */
module MemImage {
  import opened Arith
  import opened Seqs

  /** The characters `"%x"` writes: decimal digits and lower-case `a` to `f`. */
  predicate IsHexDigit(c: char) {
    '0' <= c <= '9' || 'a' <= c <= 'f'
  }

  /** One lower-case hex digit. */
  function HexDigit(d: int): (c: char)
    requires 0 <= d < 16
    ensures IsHexDigit(c)
  {
    if d < 10 then ('0' as int + d) as char else ('a' as int + d - 10) as char
  }

  /** The value of a hex digit as `HexDigit` writes it. */
  function DigitValue(c: char): int {
    if '0' <= c <= '9' then c as int - '0' as int else c as int - 'a' as int + 10
  }

  lemma DigitRoundTrip(d: int)
    requires 0 <= d < 16
    ensures DigitValue(HexDigit(d)) == d
  {
  }

  /** `"%02x" % b`: two lower-case hex digits, high nibble first. */
  function Hex2(b: byte): (r: string)
    ensures |r| == 2 && IsHexDigit(r[0]) && IsHexDigit(r[1])
    ensures DigitValue(r[0]) * 16 + DigitValue(r[1]) == b
  {
    DigitRoundTrip(b / 16);
    DigitRoundTrip(b % 16);
    [HexDigit(b / 16), HexDigit(b % 16)]
  }

  /**
   * The word the converters build from a group of bytes: each byte's two
   * digits are put in front of the word so far, so the last byte comes first.
   */
  function Packed(group: seq<byte>): (r: string)
    ensures |r| == 2 * |group|
  {
    if group == [] then [] else Hex2(group[|group| - 1]) + Packed(group[..|group| - 1])
  }

  /** Reading a line back: the byte of each digit pair, the last pair first. */
  function Unpacked(line: string): seq<int>
  {
    if |line| < 2 then []
    else Unpacked(line[2..]) + [DigitValue(line[0]) * 16 + DigitValue(line[1])]
  }

  /** Reading the lines back, in order. */
  function Decoded(lines: seq<string>): seq<int>
  {
    if lines == [] then [] else Decoded(lines[..|lines| - 1]) + Unpacked(lines[|lines| - 1])
  }

  /** A packed word reads back as its group of bytes. */
  lemma {:induction false} PackedRoundTrip(group: seq<byte>)
    ensures Unpacked(Packed(group)) == group
  {
    if group != [] {
      var init := group[..|group| - 1];
      var line := Packed(group);
      assert line[2..] == Packed(init);
      PackedRoundTrip(init);
      assert group == init + [group[|group| - 1]];
    }
  }

  /** Every character of a packed word is a lower-case hex digit. */
  lemma {:induction false} PackedDigits(group: seq<byte>)
    ensures forall k :: 0 <= k < |Packed(group)| ==> IsHexDigit(Packed(group)[k])
  {
    if group != [] {
      PackedDigits(group[..|group| - 1]);
    }
  }

  /** The digit pair at position `j` of a packed word is byte `|group| - 1 - j`. */
  lemma {:induction false} PackedReversed(group: seq<byte>, j: nat)
    requires j < |group|
    ensures Packed(group)[2 * j..2 * j + 2] == Hex2(group[|group| - 1 - j])
  {
    var init := group[..|group| - 1];
    if j > 0 {
      PackedReversed(init, j - 1);
      assert Packed(group)[2 * j..2 * j + 2] == Packed(init)[2 * (j - 1)..2 * (j - 1) + 2];
    }
  }

  /** The lines of the first `n` complete groups of four bytes. */
  function Lines(bytes: seq<byte>, n: nat): (r: seq<string>)
    requires 4 * n <= |bytes|
    ensures |r| == n
    ensures forall k :: 0 <= k < n ==> r[k] == Packed(bytes[4 * k..4 * k + 4])
  {
    if n == 0 then [] else Lines(bytes, n - 1) + [Packed(bytes[4 * (n - 1)..4 * n])]
  }

  /** One line per complete group of four bytes; a trailing partial group is not written. */
  function FullLines(bytes: seq<byte>): (r: seq<string>)
    ensures |r| == |bytes| / 4
    ensures forall k :: 0 <= k < |r| ==> |r[k]| == 8
  {
    Lines(bytes, |bytes| / 4)
  }

  /** One line per group of four bytes, and a shorter last line for a trailing partial group. */
  function HexLines(bytes: seq<byte>): (r: seq<string>)
    ensures |r| == (|bytes| + 3) / 4
    ensures forall k :: 0 <= k < |r| - 1 ==> |r[k]| == 8
    ensures |bytes| % 4 != 0 ==> |r[|r| - 1]| == 2 * (|bytes| % 4)
  {
    var full := FullLines(bytes);
    if |bytes| % 4 == 0 then full else full + [Packed(bytes[4 * (|bytes| / 4)..])]
  }

  /** Adding a byte leaves the complete groups before it alone. */
  lemma {:induction false} LinesOfLonger(bytes: seq<byte>, longer: seq<byte>, n: nat)
    requires 4 * n <= |bytes| <= |longer| && bytes == longer[..|bytes|]
    ensures Lines(longer, n) == Lines(bytes, n)
  {
    if n > 0 {
      LinesOfLonger(bytes, longer, n - 1);
      assert longer[4 * (n - 1)..4 * n] == bytes[4 * (n - 1)..4 * n];
    }
  }

  /** Where byte `i` falls in its group of four. */
  lemma GroupArith(i: nat)
    ensures (i + 1) % 4 == 0 ==> 4 * ((i + 1) / 4) == i + 1 && 4 * (i / 4) == i - 3 && i / 4 + 1 == (i + 1) / 4
    ensures (i + 1) % 4 != 0 ==> (i + 1) / 4 == i / 4 && i + 1 - 4 * (i / 4) < 4
    ensures 4 * (i / 4) <= i
  {
  }

  /** The complete groups of the first `i + 1` bytes: one more line exactly when a group fills up. */
  lemma FullLinesStep(bytes: seq<byte>, i: nat)
    requires i < |bytes|
    ensures (i + 1) % 4 != 0 ==> FullLines(bytes[..i + 1]) == FullLines(bytes[..i])
    ensures (i + 1) % 4 == 0 ==>
      FullLines(bytes[..i + 1]) == FullLines(bytes[..i]) + [Packed(bytes[i - 3..i + 1])]
  {
    var a := bytes[..i];
    var b := bytes[..i + 1];
    assert a == b[..i];
    GroupArith(i);
    var n := i / 4;
    LinesOfLonger(a, b, n);
    if (i + 1) % 4 == 0 {
      assert b[4 * n..4 * (n + 1)] == bytes[i - 3..i + 1];
      assert FullLines(b) == Lines(b, n + 1);
    }
  }

  /** Prepending the next byte's digits extends the word of the current group. */
  lemma WordStep(bytes: seq<byte>, i: nat)
    requires i < |bytes|
    ensures Hex2(bytes[i]) + Packed(bytes[4 * (i / 4)..i]) == Packed(bytes[4 * (i / 4)..i + 1])
    ensures (i + 1) % 4 == 0 <==> |Packed(bytes[4 * (i / 4)..i + 1])| >= 8
    ensures (i + 1) % 4 == 0 ==> [] == Packed(bytes[4 * ((i + 1) / 4)..i + 1])
    ensures (i + 1) % 4 != 0 ==> 4 * ((i + 1) / 4) == 4 * (i / 4)
  {
    GroupArith(i);
    var g := bytes[4 * (i / 4)..i + 1];
    assert g[..|g| - 1] == bytes[4 * (i / 4)..i];
  }

  /** The lines of the complete groups read back as those groups' bytes. */
  lemma {:induction false} DecodedLines(bytes: seq<byte>, n: nat)
    requires 4 * n <= |bytes|
    ensures Decoded(Lines(bytes, n)) == bytes[..4 * n]
  {
    if n > 0 {
      var prior := Lines(bytes, n - 1);
      var group := bytes[4 * (n - 1)..4 * n];
      PartsOf(prior, [Packed(group)]);
      DecodedLines(bytes, n - 1);
      PackedRoundTrip(group);
      PrefixJoin(bytes, 4 * (n - 1), 4 * n);
    }
  }

  /** The `util.py` image reads back as exactly the input bytes. */
  lemma HexLinesRoundTrip(bytes: seq<byte>)
    ensures Decoded(HexLines(bytes)) == bytes
  {
    var n := |bytes| / 4;
    DecodedLines(bytes, n);
    SplitAt(bytes, 4 * n);
    if |bytes| % 4 != 0 {
      PartsOf(FullLines(bytes), [Packed(bytes[4 * n..])]);
      PackedRoundTrip(bytes[4 * n..]);
    }
  }

  /** The images without the trailing partial group read back as the bytes up to it. */
  lemma FullLinesRoundTrip(bytes: seq<byte>)
    ensures Decoded(FullLines(bytes)) == bytes[..4 * (|bytes| / 4)]
  {
    DecodedLines(bytes, |bytes| / 4);
  }

  /** Whenever the byte count is not a multiple of four, the trailing bytes are lost. */
  lemma FullLinesLoseTail(bytes: seq<byte>)
    requires |bytes| % 4 != 0
    ensures Decoded(FullLines(bytes)) != bytes
  {
    FullLinesRoundTrip(bytes);
    assert |bytes[..4 * (|bytes| / 4)]| < |bytes|;
  }

  /** Five bytes give one line that holds only four of them; `Convert` still counts five. */
  lemma FiveBytes()
    ensures var bytes: seq<byte> := [1, 2, 3, 4, 5];
      FullLines(bytes) == ["04030201"] && Decoded(FullLines(bytes)) == [1, 2, 3, 4]
  {
    var bytes: seq<byte> := [1, 2, 3, 4, 5];
    assert bytes[0..4] == [1, 2, 3, 4];
    PackedFour(1, 2, 3, 4);
    assert Hex2(4) + (Hex2(3) + (Hex2(2) + Hex2(1))) == "04030201";
    FullLinesRoundTrip(bytes);
  }

  /** A group of four bytes is written last byte first. */
  lemma PackedFour(a: byte, b: byte, c: byte, d: byte)
    ensures Packed([a, b, c, d]) == Hex2(d) + (Hex2(c) + (Hex2(b) + Hex2(a)))
  {
    var g: seq<byte> := [a, b, c, d];
    assert g[..3] == [a, b, c] && g[..3][..2] == [a, b] && g[..3][..2][..1] == [a];
    assert Packed([a]) == Hex2(a);
    assert Packed([a, b]) == Hex2(b) + Hex2(a);
    assert Packed([a, b, c]) == Hex2(c) + (Hex2(b) + Hex2(a));
  }

  /** The two flavours agree on the complete groups. */
  lemma HexLinesExtendFull(bytes: seq<byte>)
    ensures HexLines(bytes)[..|bytes| / 4] == FullLines(bytes)
  {
  }

  /** The state of a converter loop after `i` bytes: the complete lines, and the word of the group being filled. */
  ghost predicate Converted(src: seq<byte>, i: nat, lines: seq<string>, word: string)
    requires i <= |src|
  {
    lines == FullLines(src[..i]) && word == Packed(src[4 * (i / 4)..i])
  }

  /** One byte of a converter loop: its digits go in front of the word, and a full word becomes a line. */
  lemma PackStep(src: seq<byte>, i: nat, lines: seq<string>, word: string)
    requires i < |src| && Converted(src, i, lines, word)
    ensures var w := Hex2(src[i]) + word;
      if |w| >= 8 then Converted(src, i + 1, lines + [w], "") else Converted(src, i + 1, lines, w)
  {
    WordStep(src, i);
    FullLinesStep(src, i);
  }

  /** After the last byte: the lines of all complete groups, and the word of the trailing partial one. */
  lemma ConvertedAll(src: seq<byte>, lines: seq<string>, word: string)
    requires Converted(src, |src|, lines, word)
    ensures lines == FullLines(src) && word == Packed(src[4 * (|src| / 4)..])
  {
    assert src[..|src|] == src;
  }

  /**
   * `convert_hex` (`util.py`): every byte goes in front of the word, a full
   * word is written, and a partial word left at the end is written too. The
   * count is the number of bytes.
   */
  method ConvertHex(src: seq<byte>) returns (lines: seq<string>, lenBytes: nat)
    ensures lines == HexLines(src)
    ensures lenBytes == |src|
  {
    lenBytes := 0;
    var word := "";
    lines := [];
    for i := 0 to |src|
      invariant lenBytes == i
      invariant Converted(src, i, lines, word)
    {
      PackStep(src, i, lines, word);
      word := Hex2(src[i]) + word;
      if |word| >= 8 {
        lines := lines + [word];
        word := "";
      }
      lenBytes := lenBytes + 1;
    }
    ConvertedAll(src, lines, word);
    if |word| > 0 {
      lines := lines + [word];
    }
    FlushLast(src);
  }

  /** After the loop the word holds the trailing partial group, empty when there is none. */
  lemma FlushLast(src: seq<byte>)
    ensures |src| % 4 == 0 ==> HexLines(src) == FullLines(src) && Packed(src[4 * (|src| / 4)..]) == []
    ensures |src| % 4 != 0 ==>
      HexLines(src) == FullLines(src) + [Packed(src[4 * (|src| / 4)..])] && |Packed(src[4 * (|src| / 4)..])| > 0
  {
  }

  /**
   * `convert` (`tests/scripts/hex_converter.py`): the same packing with no
   * write after the loop, so a trailing partial word is dropped; the count
   * still includes its bytes.
   */
  method Convert(src: seq<byte>) returns (lines: seq<string>, memSizeBytes: nat)
    ensures lines == FullLines(src)
    ensures memSizeBytes == |src|
  {
    memSizeBytes := 0;
    var word := "";
    lines := [];
    for i := 0 to |src|
      invariant memSizeBytes == i
      invariant Converted(src, i, lines, word)
    {
      PackStep(src, i, lines, word);
      word := Hex2(src[i]) + word;
      memSizeBytes := memSizeBytes + 1;
      if |word| >= 8 {
        lines := lines + [word];
        word := "";
      }
    }
    ConvertedAll(src, lines, word);
  }

  /** The top-level loop of `tests/hex_converter.py`: the same lines, and no count. */
  method ConvertInline(contents: seq<byte>) returns (lines: seq<string>)
    ensures lines == FullLines(contents)
  {
    var word := "";
    lines := [];
    for i := 0 to |contents|
      invariant Converted(contents, i, lines, word)
    {
      PackStep(contents, i, lines, word);
      word := Hex2(contents[i]) + word;
      if |word| >= 8 {
        lines := lines + [word];
        word := "";
      }
    }
    ConvertedAll(contents, lines, word);
  }

  // ---------------------------------------------------------------------------
  // Address width

  /**
   * `calculate_address_width`: the number of address bits a memory of
   * `sizeBytes` bytes needs, the least `w` with `2^w >= sizeBytes`.
   */
  function AddressWidth(sizeBytes: nat): (w: nat)
    requires sizeBytes >= 1
    ensures Pow2(w) >= sizeBytes
    ensures w == 0 || Pow2(w - 1) < sizeBytes
  {
    if sizeBytes == 1 then 0 else 1 + AddressWidth((sizeBytes + 1) / 2)
  }

  /** Any width that fits the memory is at least the computed one. */
  lemma {:induction false} AddressWidthLeast(sizeBytes: nat, w: nat)
    requires sizeBytes >= 1 && Pow2(w) >= sizeBytes
    ensures AddressWidth(sizeBytes) <= w
  {
    var a := AddressWidth(sizeBytes);
    if w < a {
      Pow2Monotone(w, a - 1);
    }
  }

  lemma {:induction false} Pow2Monotone(a: nat, b: nat)
    requires a <= b
    ensures Pow2(a) <= Pow2(b)
    decreases b
  {
    if a < b {
      Pow2Monotone(a, b - 1);
    }
  }

  lemma {:induction false} Pow2Below(a: nat, b: nat)
    requires a < b
    ensures Pow2(a) < Pow2(b)
    decreases b
  {
    if a < b - 1 {
      Pow2Below(a, b - 1);
    }
  }

  /** A power of two needs exactly its exponent. */
  lemma AddressWidthOfPower(w: nat)
    ensures AddressWidth(Pow2(w)) == w
  {
    AddressWidthLeast(Pow2(w), w);
    var a := AddressWidth(Pow2(w));
    if a < w {
      Pow2Below(a, w);
    }
  }
}

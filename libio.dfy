/**
 * The formatted output of the embedded runtime: the decimal emitter `xtoa`
 * with its table of powers of ten, the nibble emitter `puth` and
 * `tiny_printf`. Every character goes through `_putchar`, modelled as a
 * console whose output grows by one character per call.
 */
module LibIo {
  import opened Arith
  import Seqs

  /** The character sink behind `_putchar`. */
  class Console {
    var out: string

    constructor ()
      ensures out == []
    {
      out := [];
    }

    /** `_putchar`: one more character on the output. */
    method PutChar(c: char)
      modifies this
      ensures out == old(out) + [c]
    {
      out := out + [c];
    }

    /** `_putstring`: the characters of a C string, up to its terminator. */
    method PutString(s: string)
      modifies this
      ensures out == old(out) + CString(s)
    {
      var k := 0;
      while k < |s| && s[k] != '\0'
        invariant 0 <= k <= |s|
        invariant '\0' !in s[..k]
        invariant out == old(out) + s[..k]
      {
        PutChar(s[k]);
        assert s[..k + 1] == s[..k] + [s[k]];
        k := k + 1;
      }
      CStringOfPrefix(s, k);
    }
  }

  /** A C string: the characters before the first NUL. */
  function CString(s: string): (r: string)
    ensures |r| <= |s| && r == s[..|r|]
    ensures '\0' !in r
    ensures |r| < |s| ==> s[|r|] == '\0'
  {
    if s == [] || s[0] == '\0' then []
    else [s[0]] + CString(s[1..])
  }

  /** A prefix without NUL that stops at a NUL or at the end is the C string. */
  lemma {:induction false} CStringOfPrefix(s: string, k: nat)
    requires k <= |s| && '\0' !in s[..k]
    requires k == |s| || s[k] == '\0'
    ensures CString(s) == s[..k]
  {
    if k > 0 {
      assert s[0] in s[..k];
      assert s[1..][..k - 1] == s[..k][1..];
      assert forall c :: c in s[..k][1..] ==> c in s[..k];
      CStringOfPrefix(s[1..], k - 1);
      assert s[..k] == [s[0]] + s[1..][..k - 1];
    }
  }

  /** The table `dv`: the powers of ten a 32-bit value can hold, largest first. */
  const Dv: seq<nat> := [1000000000, 100000000, 10000000, 1000000, 100000, 10000, 1000, 100, 10, 1]

  /** The table holds the powers of ten from 10^9 down to 1. */
  lemma DvPowers()
    ensures |Dv| == 10
    ensures forall k :: 0 <= k < 10 ==> Dv[k] == Pow10(9 - k)
  {
    assert Pow10(1) == 10;
    assert Pow10(2) == 100;
    assert Pow10(3) == 1000;
    assert Pow10(4) == 10000;
    assert Pow10(5) == 100000;
    assert Pow10(6) == 1000000;
    assert Pow10(7) == 10000000;
    assert Pow10(8) == 100000000;
    assert Pow10(9) == 1000000000;
  }

  /** Each entry but the last is ten times the next and even; the last is 1. */
  lemma DvEntry(k: nat)
    requires k < 10
    ensures Dv[k] > 0
    ensures k < 9 ==> Dv[k] == 10 * Dv[k + 1] && Dv[k] % 2 == 0
    ensures k == 9 ==> Dv[k] == 1
  {
  }

  /** Entries further down the table are smaller. */
  lemma {:induction false} DvDecreasing(j: nat, k: nat)
    requires j <= k < 10
    ensures Dv[k] <= Dv[j]
    decreases k - j
  {
    if j < k {
      DvEntry(j);
      DvDecreasing(j + 1, k);
    }
  }

  function DigitChar(d: nat): (c: char)
    requires d < 10
    ensures '0' <= c <= '9'
  {
    ('0' as int + d) as char
  }

  predicate IsDecimalDigit(c: char) {
    '0' <= c <= '9'
  }

  /** The decimal numeral of `x`, without leading zeros. */
  function Decimal(x: nat): (r: string)
    ensures r != []
    ensures forall k :: 0 <= k < |r| ==> IsDecimalDigit(r[k])
    ensures x > 0 ==> r[0] != '0'
    ensures x == 0 ==> r == [DigitChar(0)]
    decreases x
  {
    if x < 10 then [DigitChar(x)]
    else Decimal(x / 10) + [DigitChar(x % 10)]
  }

  function DigitValue(c: char): nat
    requires IsDecimalDigit(c)
  {
    c as int - '0' as int
  }

  /** The value a numeral reads back as. */
  function DecimalValue(s: string): nat
    requires forall k :: 0 <= k < |s| ==> IsDecimalDigit(s[k])
  {
    if s == [] then 0
    else DecimalValue(s[..|s| - 1]) * 10 + DigitValue(s[|s| - 1])
  }

  /** `Decimal` writes `x` so that it reads back as `x`. */
  lemma {:induction false} DecimalRoundTrip(x: nat)
    ensures DecimalValue(Decimal(x)) == x
    decreases x
  {
    if x >= 10 {
      DecimalRoundTrip(x / 10);
      var r := Decimal(x);
      assert r[..|r| - 1] == Decimal(x / 10);
    }
  }

  /** The numeral of `x` has as many digits as the least power of ten above `x`. */
  lemma {:induction false} DecimalLength(x: nat)
    ensures x < Pow10(|Decimal(x)|)
    ensures |Decimal(x)| == 1 || Pow10(|Decimal(x)| - 1) <= x
    decreases x
  {
    if x >= 10 {
      DecimalLength(x / 10);
    }
  }

  /** Appending a digit to a numeral multiplies its value by ten and adds the digit. */
  lemma DecimalAppend(q: nat, digit: nat)
    requires digit < 10
    ensures q >= 1 ==> Decimal(10 * q + digit) == Decimal(q) + [DigitChar(digit)]
    ensures q == 0 && digit >= 1 ==> Decimal(digit) == [DigitChar(digit)]
  {
    if q >= 1 {
      DivModUnique(10 * q + digit, 10, q, digit);
    }
  }

  /** `x0` is `q` whole multiples of `p` and a remainder `x` below `p`. */
  ghost predicate Splits(x0: nat, q: nat, p: nat, x: nat) {
    x0 == q * p + x && x < p
  }

  /**
   * One digit of `xtoa`: the count of `d` in the remainder below `10 * d`
   * extends the numeral of the quotient so far by one digit.
   */
  lemma DigitStep(x0: nat, q: nat, d: nat, x: nat, digit: nat, rest: nat, first: bool)
    requires d > 0 && Splits(x0, q, 10 * d, x) && x == digit * d + rest && rest < d
    requires first ==> q == 0 && d <= x
    requires !first ==> q >= 1
    ensures Splits(x0, 10 * q + digit, d, rest)
    ensures digit < 10 && 10 * q + digit >= 1
    ensures Decimal(10 * q + digit) == (if first then [] else Decimal(q)) + [DigitChar(digit)]
  {
    assert q * (10 * d) == (10 * q) * d;
    assert (10 * q + digit) * d == (10 * q) * d + digit * d;
    FactorBelow(digit, 10, d);
    DecimalAppend(q, digit);
  }

  /** The digit `xtoa` writes for one power, and the quotient it completes. */
  lemma XtoaDigit(x0: nat, q: nat, d: nat, x: nat, c: char, rest: nat, first: bool) returns (q': nat)
    requires d > 0 && Splits(x0, q, 10 * d, x) && c == DigitChar(x / d) && rest == x % d
    requires first ==> q == 0 && d <= x
    requires !first ==> q >= 1
    ensures Splits(x0, q', d, rest) && q' >= 1
    ensures Decimal(q') == (if first then [] else Decimal(q)) + [c]
  {
    var digit := x / d;
    DigitStep(x0, q, d, x, digit, rest, first);
    q' := 10 * q + digit;
  }

  /**
   * `xtoa`: skip the table entries above `x`, then write one digit per
   * remaining power of ten, each the number of times that power can still
   * be subtracted, until the odd entry 1; zero is written as a single `0`.
   */
  method Xtoa(console: Console, x: nat, dp: nat)
    requires x < 0x1_0000_0000 && dp < 10 && x < 10 * Dv[dp]
    modifies console
    ensures console.out == old(console.out) + Decimal(x)
  {
    DvEntry(dp);
    ghost var x0 := x;
    var x := x;
    var dp := dp;
    if x != 0 {
      while x < Dv[dp]
        invariant dp < 10 && x < 10 * Dv[dp]
        invariant console.out == old(console.out)
        decreases 10 - dp
      {
        DvEntry(dp);
        dp := dp + 1;
      }
      ghost var k0 := dp;
      ghost var q := 0;
      while true
        invariant k0 <= dp < 10
        invariant Splits(x0, q, 10 * Dv[dp], x)
        invariant dp == k0 ==> q == 0 && Dv[dp] <= x
        invariant dp > k0 ==> q >= 1
        invariant console.out == old(console.out) + (if dp == k0 then [] else Decimal(q))
        decreases 10 - dp
      {
        var d := Dv[dp];
        DvEntry(dp);
        ghost var before := console.out;
        ghost var xPrev := x;
        var c;
        c, x := SubtractPower(x, d);
        console.PutChar(c);
        ghost var q' := XtoaDigit(x0, q, d, xPrev, c, x, dp == k0);
        assert console.out == old(console.out) + Decimal(q');
        q := q';
        if d % 2 == 1 {
          return;
        }
        dp := dp + 1;
      }
    } else {
      console.PutChar('0');
    }
  }

  /**
   * The inner loop of `xtoa`: subtract `d` as often as it fits, counting
   * up from `'0'`; the count is the digit and what remains is below `d`.
   */
  method SubtractPower(x: nat, d: nat) returns (c: char, rest: nat)
    requires 0 < d && x < 10 * d
    ensures c == DigitChar(x / d) && rest == x % d
  {
    ghost var count := 0;
    c := '0';
    rest := x;
    while rest >= d
      invariant count * d + rest == x
      invariant count < 10 && c == DigitChar(count)
      decreases rest
    {
      FactorBelow(count + 1, 10, d);
      count := count + 1;
      c := (c as int + 1) as char;
      rest := rest - d;
    }
    DivModUnique(x, d, count, rest);
  }

  /** `puth`'s table digit for a nibble: `0`-`9`, then upper-case `A`-`F`. */
  function HexChar(n: nat): (c: char)
    requires n < 16
    ensures IsHexChar(c)
  {
    if n < 10 then ('0' as int + n) as char else ('A' as int + n - 10) as char
  }

  predicate IsHexChar(c: char) {
    '0' <= c <= '9' || 'A' <= c <= 'F'
  }

  function HexCharValue(c: char): (n: nat)
    requires IsHexChar(c)
    ensures n < 16
  {
    if c <= '9' then c as int - '0' as int else c as int - 'A' as int + 10
  }

  /** `HexChar` writes exactly the table `0123456789ABCDEF`, and reads back. */
  lemma HexTable(n: nat)
    requires n < 16
    ensures HexChar(n) == "0123456789ABCDEF"[n]
    ensures HexCharValue(HexChar(n)) == n
  {
  }

  /** The last `n` nibbles of `v` as hex digits, most significant first. */
  function HexDigits(v: nat, n: nat): (r: string)
    ensures |r| == n
    ensures forall k :: 0 <= k < |r| ==> IsHexChar(r[k])
  {
    if n == 0 then [] else HexDigits(v / 16, n - 1) + [HexChar(v % 16)]
  }

  /** The value of a string of upper-case hex digits. */
  function HexValue(s: string): nat
    requires forall k :: 0 <= k < |s| ==> IsHexChar(s[k])
  {
    if s == [] then 0 else HexValue(s[..|s| - 1]) * 16 + HexCharValue(s[|s| - 1])
  }

  /** `%x`: eight hex digits of a 32-bit value. */
  function Hex8(v: nat): string {
    HexDigits(v, 8)
  }

  /** The `n` digits read back as `v` modulo `16^n`. */
  lemma {:induction false} HexDigitsValue(v: nat, n: nat)
    ensures HexValue(HexDigits(v, n)) == v % Pow16(n)
  {
    if n > 0 {
      HexDigitsValue(v / 16, n - 1);
      var r := HexDigits(v, n);
      assert r[..|r| - 1] == HexDigits(v / 16, n - 1);
      HexTable(v % 16);
      DivDiv(v, 16, Pow16(n - 1));
    }
  }

  /** Digit `k` from the right is nibble `k` of `v`. */
  lemma {:induction false} HexDigitsNibble(v: nat, n: nat, k: nat)
    requires k < n
    ensures HexDigits(v, n)[n - 1 - k] == HexChar(v / Pow16(k) % 16)
  {
    if k > 0 {
      HexDigitsNibble(v / 16, n - 1, k - 1);
      DivDiv(v, 16, Pow16(k - 1));
    }
  }

  /** `%x` writes a 32-bit value as eight digits that read back as the value. */
  lemma Hex8RoundTrip(v: nat)
    requires v < 0x1_0000_0000
    ensures |Hex8(v)| == 8
    ensures HexValue(Hex8(v)) == v
  {
    Pow16Table();
    HexDigitsValue(v, 8);
    DivModUnique(v, Pow16(8), 0, v);
  }

  lemma Pow16Table()
    ensures Pow16(1) == 0x10 && Pow16(2) == 0x100 && Pow16(3) == 0x1000 && Pow16(4) == 0x1_0000
    ensures Pow16(5) == 0x10_0000 && Pow16(6) == 0x100_0000 && Pow16(7) == 0x1000_0000
    ensures Pow16(8) == 0x1_0000_0000
  {
    assert Pow16(2) == 0x100;
    assert Pow16(4) == 0x1_0000;
    assert Pow16(6) == 0x100_0000;
  }

  /** The eight digits are the nibbles `v >> 28`, `v >> 24`, ..., `v`, each masked with `0xf`. */
  lemma Hex8Nibbles(v: nat)
    ensures Hex8(v) == [HexChar(v / 0x1000_0000 % 16), HexChar(v / 0x100_0000 % 16),
      HexChar(v / 0x10_0000 % 16), HexChar(v / 0x1_0000 % 16), HexChar(v / 0x1000 % 16),
      HexChar(v / 0x100 % 16), HexChar(v / 0x10 % 16), HexChar(v % 16)]
  {
    Pow16Table();
    HexDigitsNibble(v, 8, 7);
    HexDigitsNibble(v, 8, 6);
    HexDigitsNibble(v, 8, 5);
    HexDigitsNibble(v, 8, 4);
    HexDigitsNibble(v, 8, 3);
    HexDigitsNibble(v, 8, 2);
    HexDigitsNibble(v, 8, 1);
    HexDigitsNibble(v, 8, 0);
  }

  /** `puth`: the digit of the low nibble of `n`. */
  method Puth(console: Console, n: nat)
    requires n < 0x1_0000_0000
    modifies console
    ensures console.out == old(console.out) + [HexChar(n % 16)]
  {
    console.PutChar(HexChar(n % 16));
  }

  /** A variadic argument: an `int` or a `char *`. */
  datatype Arg = Int(value: int) | Str(text: string)

  datatype Kind = IntKind | StrKind

  /** The arguments a conversion character takes: `%s` a string, `%c %d %u %x` an `int`, others none. */
  function ArgKinds(spec: char): (r: seq<Kind>)
    ensures |r| <= 1
  {
    if spec == 's' then [StrKind]
    else if spec == 'c' || spec == 'd' || spec == 'u' || spec == 'x' then [IntKind]
    else []
  }

  /** The arguments a format consumes from position `i` on, up to its end or its first NUL. */
  function NeedsFrom(format: string, i: nat): seq<Kind>
    decreases |format| - i
  {
    if i >= |format| || format[i] == '\0' then []
    else if format[i] == '%' then
      if i + 1 >= |format| || format[i + 1] == '\0' then []
      else ArgKinds(format[i + 1]) + NeedsFrom(format, i + 2)
    else NeedsFrom(format, i + 1)
  }

  function Needs(format: string): seq<Kind> {
    NeedsFrom(format, 0)
  }

  /** An argument of the kind asked for; an `int` fits in 32 bits. */
  predicate Matches(a: Arg, kind: Kind) {
    match kind
    case StrKind => a.Str?
    case IntKind => a.Int? && -0x8000_0000 <= a.value < 0x8000_0000
  }

  /** The arguments supply the kinds asked for, in order. */
  predicate Fits(args: seq<Arg>, kinds: seq<Kind>) {
    |kinds| <= |args| && forall k :: 0 <= k < |kinds| ==> Matches(args[k], kinds[k])
  }

  /**
   * Argument `j`, as `va_arg` fetches it. Past the last argument C leaves
   * the result undefined; the model then reads `Int(0)`.
   */
  function ArgAt(args: seq<Arg>, j: nat): Arg {
    if j < |args| then args[j] else Int(0)
  }

  /** `(char)` of an `int`: its low eight bits. */
  function CharOf(v: int): char {
    (v % 0x100) as char
  }

  function IntOf(a: Arg): int {
    match a
    case Int(v) => v
    case Str(_) => 0
  }

  function TextOf(a: Arg): string {
    match a
    case Int(_) => []
    case Str(t) => t
  }

  /** What one conversion writes for its argument. */
  function Conversion(spec: char, a: Arg): string {
    if spec == 's' then CString(TextOf(a))
    else if spec == 'c' then [CharOf(IntOf(a))]
    else if spec == 'd' && IntOf(a) < 0 then ['-'] + Decimal(-IntOf(a))
    else if spec == 'x' then Hex8(IntOf(a) % 0x1_0000_0000)
    else Decimal(IntOf(a) % 0x1_0000_0000)
  }

  /**
   * What `tiny_printf` writes from format position `i` on, with argument
   * `j` next: ordinary characters as they are, each conversion its
   * argument, an unknown conversion character after a `%`; a NUL, the end,
   * or a `%` at the end stop the output.
   */
  function RenderFrom(format: string, i: nat, args: seq<Arg>, j: nat): string
    decreases |format| - i
  {
    if i >= |format| || format[i] == '\0' then []
    else if format[i] == '%' then
      if i + 1 >= |format| || format[i + 1] == '\0' then []
      else if ArgKinds(format[i + 1]) == [] then ['%', format[i + 1]] + RenderFrom(format, i + 2, args, j)
      else Conversion(format[i + 1], ArgAt(args, j)) + RenderFrom(format, i + 2, args, j + 1)
    else [format[i]] + RenderFrom(format, i + 1, args, j)
  }

  function Render(format: string, args: seq<Arg>): string {
    RenderFrom(format, 0, args, 0)
  }

  /** `%d` writes the signed value, a `-` before the magnitude of a negative one. */
  lemma SignedConversion(v: int)
    requires -0x8000_0000 <= v < 0x8000_0000
    ensures v >= 0 ==> DecimalValue(Conversion('d', Int(v))) == v
    ensures v < 0 ==>
      var r := Conversion('d', Int(v)); r[0] == '-' && DecimalValue(r[1..]) == -v
  {
    if v < 0 {
      NegativeSigned(v);
    } else {
      NonNegativeSigned(v);
    }
  }

  lemma NegativeSigned(v: int)
    requires v < 0
    ensures var r := Conversion('d', Int(v)); r[0] == '-' && DecimalValue(r[1..]) == -v
  {
    var r := ['-'] + Decimal(-v);
    assert Conversion('d', Int(v)) == r;
    assert r[1..] == Decimal(-v);
    DecimalRoundTrip(-v);
  }

  lemma NonNegativeSigned(v: int)
    requires 0 <= v < 0x8000_0000
    ensures DecimalValue(Conversion('d', Int(v))) == v
  {
    assert v % 0x1_0000_0000 == v;
    assert Conversion('d', Int(v)) == Decimal(v);
    DecimalRoundTrip(v);
  }

  /**
   * `%u` writes the value reinterpreted as unsigned 32-bit, which for a
   * non-negative 32-bit value is what `%d` writes.
   */
  lemma UnsignedConversion(v: int)
    ensures DecimalValue(Conversion('u', Int(v))) == v % 0x1_0000_0000
    ensures 0 <= v < 0x8000_0000 ==> Conversion('u', Int(v)) == Conversion('d', Int(v))
  {
    DecimalRoundTrip(v % 0x1_0000_0000);
  }

  /** `%x` writes eight upper-case hex digits of the value reinterpreted as unsigned 32-bit. */
  lemma HexConversion(v: int)
    ensures var r := Conversion('x', Int(v));
      |r| == 8 && (forall k :: 0 <= k < 8 ==> IsHexChar(r[k])) && HexValue(r) == v % 0x1_0000_0000
  {
    Hex8RoundTrip(v % 0x1_0000_0000);
  }

  /** From position `i` on, every `%` starts a conversion and there is no NUL. */
  predicate ClosedFrom(format: string, i: nat)
    decreases |format| - i
  {
    i >= |format| ||
    (format[i] != '\0' &&
      if format[i] == '%' then i + 1 < |format| && format[i + 1] != '\0' && ClosedFrom(format, i + 2)
      else ClosedFrom(format, i + 1))
  }

  predicate Closed(format: string) {
    ClosedFrom(format, 0)
  }

  /** Past the end of `a`, formatting `a + b` is formatting `b`. */
  lemma {:induction false} ShiftFrom(a: string, b: string, k: nat, args: seq<Arg>, j: nat)
    ensures NeedsFrom(a + b, |a| + k) == NeedsFrom(b, k)
    ensures RenderFrom(a + b, |a| + k, args, j) == RenderFrom(b, k, args, j)
    decreases |b| - k
  {
    var f := a + b;
    var i := |a| + k;
    if k < |b| && b[k] != '\0' {
      assert f[i] == b[k];
      if b[k] == '%' {
        if k + 1 < |b| && b[k + 1] != '\0' {
          assert f[i + 1] == b[k + 1];
          ShiftFrom(a, b, k + 2, args, j);
          ShiftFrom(a, b, k + 2, args, j + 1);
        }
      } else {
        ShiftFrom(a, b, k + 1, args, j);
      }
    }
  }

  /** A closed format followed by more asks for its own arguments, then the rest's. */
  lemma {:induction false} NeedsAppendFrom(a: string, b: string, i: nat)
    requires i <= |a| && ClosedFrom(a, i)
    ensures NeedsFrom(a + b, i) == NeedsFrom(a, i) + NeedsFrom(b, 0)
    decreases |a| - i
  {
    var f := a + b;
    if i == |a| {
      ShiftFrom(a, b, 0, [], 0);
    } else {
      assert f[i] == a[i];
      if a[i] == '%' {
        assert f[i + 1] == a[i + 1];
        NeedsAppendFrom(a, b, i + 2);
      } else {
        NeedsAppendFrom(a, b, i + 1);
      }
    }
  }

  /**
   * Formatting is compositional: a closed format followed by more writes
   * its own output, then the rest's with the arguments it left over.
   */
  lemma {:induction false} AppendFrom(a: string, b: string, i: nat, args: seq<Arg>, j: nat)
    requires i <= |a| && ClosedFrom(a, i)
    ensures RenderFrom(a + b, i, args, j) ==
      RenderFrom(a, i, args, j) + RenderFrom(b, 0, args, j + |NeedsFrom(a, i)|)
    decreases |a| - i, 1
  {
    if i == |a| {
      ShiftFrom(a, b, 0, args, j);
    } else if a[i] != '%' {
      AppendPlain(a, b, i, args, j);
    } else if ArgKinds(a[i + 1]) == [] {
      AppendUnknown(a, b, i, args, j);
    } else {
      AppendConversion(a, b, i, args, j);
    }
  }

  lemma {:induction false} AppendPlain(a: string, b: string, i: nat, args: seq<Arg>, j: nat)
    requires i < |a| && ClosedFrom(a, i) && a[i] != '%'
    ensures RenderFrom(a + b, i, args, j) ==
      RenderFrom(a, i, args, j) + RenderFrom(b, 0, args, j + |NeedsFrom(a, i)|)
    decreases |a| - i, 0
  {
    AppendFrom(a, b, i + 1, args, j);
    assert (a + b)[i] == a[i];
    assert NeedsFrom(a, i) == NeedsFrom(a, i + 1);
    var tail := RenderFrom(b, 0, args, j + |NeedsFrom(a, i + 1)|);
    Seqs.ConcatAssoc([a[i]], RenderFrom(a, i + 1, args, j), tail);
  }

  lemma {:induction false} AppendUnknown(a: string, b: string, i: nat, args: seq<Arg>, j: nat)
    requires i < |a| && ClosedFrom(a, i) && a[i] == '%'
    requires ArgKinds(a[i + 1]) == []
    ensures RenderFrom(a + b, i, args, j) ==
      RenderFrom(a, i, args, j) + RenderFrom(b, 0, args, j + |NeedsFrom(a, i)|)
    decreases |a| - i, 0
  {
    AppendFrom(a, b, i + 2, args, j);
    var c := a[i + 1];
    assert (a + b)[i] == a[i] && (a + b)[i + 1] == c;
    assert NeedsFrom(a, i) == NeedsFrom(a, i + 2) by { assert ArgKinds(c) + NeedsFrom(a, i + 2) == NeedsFrom(a, i + 2); }
    var tail := RenderFrom(b, 0, args, j + |NeedsFrom(a, i + 2)|);
    Seqs.ConcatAssoc(['%', c], RenderFrom(a, i + 2, args, j), tail);
  }

  lemma {:induction false} AppendConversion(a: string, b: string, i: nat, args: seq<Arg>, j: nat)
    requires i < |a| && ClosedFrom(a, i) && a[i] == '%'
    requires ArgKinds(a[i + 1]) != []
    ensures RenderFrom(a + b, i, args, j) ==
      RenderFrom(a, i, args, j) + RenderFrom(b, 0, args, j + |NeedsFrom(a, i)|)
    decreases |a| - i, 0
  {
    AppendFrom(a, b, i + 2, args, j + 1);
    assert (a + b)[i] == a[i] && (a + b)[i + 1] == a[i + 1];
    assert |NeedsFrom(a, i)| == 1 + |NeedsFrom(a, i + 2)|;
  }

  lemma RenderAppend(a: string, b: string, args: seq<Arg>)
    requires Closed(a)
    ensures Needs(a + b) == Needs(a) + Needs(b)
    ensures Render(a + b, args) == Render(a, args) + RenderFrom(b, 0, args, |Needs(a)|)
  {
    NeedsAppendFrom(a, b, 0);
    AppendFrom(a, b, 0, args, 0);
  }

  /** Ordinary characters are copied verbatim and take no argument. */
  lemma {:induction false} PlainFrom(format: string, i: nat, args: seq<Arg>, j: nat)
    requires forall k :: i <= k < |format| ==> format[k] != '%' && format[k] != '\0'
    ensures ClosedFrom(format, i)
    ensures NeedsFrom(format, i) == [] && RenderFrom(format, i, args, j) == if i < |format| then format[i..] else []
    decreases |format| - i
  {
    if i < |format| {
      PlainFrom(format, i + 1, args, j);
      if i + 1 < |format| {
        assert format[i..] == [format[i]] + format[i + 1..];
      }
    }
  }

  lemma RenderPlain(format: string, args: seq<Arg>)
    requires '%' !in format && '\0' !in format
    ensures Closed(format)
    ensures Needs(format) == [] && Render(format, args) == format
  {
    PlainFrom(format, 0, args, 0);
  }

  /** A NUL, or a `%` with nothing after it, ends the output. */
  lemma RenderStops(a: string, b: string, args: seq<Arg>)
    requires Closed(a)
    ensures Needs(a + ['\0'] + b) == Needs(a) && Render(a + ['\0'] + b, args) == Render(a, args)
    ensures Needs(a + ['%']) == Needs(a) && Render(a + ['%'], args) == Render(a, args)
  {
    assert a + ['\0'] + b == a + (['\0'] + b);
    RenderAppend(a, ['\0'] + b, args);
    RenderAppend(a, ['%'], args);
    assert Needs(a) + [] == Needs(a);
    assert Render(a, args) + [] == Render(a, args);
  }

  /** The character at position `i` of a C string; past the end, its terminating NUL. */
  function At(format: string, i: nat): char {
    if i < |format| then format[i] else '\0'
  }

  /** The `switch` of `tiny_printf` for a conversion character that takes an argument. */
  method Convert(console: Console, spec: char, a: Arg)
    requires ArgKinds(spec) != [] && Matches(a, ArgKinds(spec)[0])
    modifies console
    ensures console.out == old(console.out) + Conversion(spec, a)
  {
    if spec == 's' {
      console.PutString(a.text);
    } else if spec == 'c' {
      console.PutChar(CharOf(a.value));
    } else if spec == 'd' || spec == 'u' {
      PutDecimal(console, spec == 'd', a.value);
      assert Conversion(spec, a) == (if spec == 'd' && a.value < 0 then ['-'] + Decimal(-a.value)
        else Decimal(a.value % 0x1_0000_0000));
    } else {
      PutHex(console, a.value % 0x1_0000_0000);
    }
  }

  /** `%d` (`signed`) or `%u`: a `-` for a negative signed value, then `xtoa` of the 32-bit pattern. */
  method PutDecimal(console: Console, signed: bool, v: int)
    requires -0x8000_0000 <= v < 0x8000_0000
    modifies console
    ensures console.out == old(console.out) +
      if signed && v < 0 then ['-'] + Decimal(-v) else Decimal(v % 0x1_0000_0000)
  {
    var n := v;
    if signed && n < 0 {
      n := -n;
      console.PutChar('-');
    }
    Xtoa(console, n % 0x1_0000_0000, 0);
  }

  /** `%x`: `puth` of the value shifted right by 28, 24, ..., 4 and 0 bits. */
  method PutHex(console: Console, i: nat)
    requires i < 0x1_0000_0000
    modifies console
    ensures console.out == old(console.out) + Hex8(i)
  {
    Puth(console, i / 0x1000_0000);
    Puth(console, i / 0x100_0000);
    Puth(console, i / 0x10_0000);
    Puth(console, i / 0x1_0000);
    Puth(console, i / 0x1000);
    Puth(console, i / 0x100);
    Puth(console, i / 0x10);
    Puth(console, i);
    Hex8Nibbles(i);
  }

  /** One step of the walk over the format, as `RenderFrom` takes it. */
  lemma RenderFromStep(format: string, i: nat, args: seq<Arg>, j: nat)
    ensures At(format, i) == '\0' ==> RenderFrom(format, i, args, j) == [] && NeedsFrom(format, i) == []
    ensures At(format, i) != '\0' && At(format, i) != '%' ==>
      RenderFrom(format, i, args, j) == [At(format, i)] + RenderFrom(format, i + 1, args, j) &&
      NeedsFrom(format, i) == NeedsFrom(format, i + 1)
    ensures At(format, i) == '%' && At(format, i + 1) == '\0' ==>
      RenderFrom(format, i, args, j) == [] && NeedsFrom(format, i) == []
    ensures At(format, i) == '%' && At(format, i + 1) != '\0' && ArgKinds(At(format, i + 1)) == [] ==>
      RenderFrom(format, i, args, j) == ['%', At(format, i + 1)] + RenderFrom(format, i + 2, args, j) &&
      NeedsFrom(format, i) == NeedsFrom(format, i + 2)
    ensures At(format, i) == '%' && At(format, i + 1) != '\0' && ArgKinds(At(format, i + 1)) != [] ==>
      RenderFrom(format, i, args, j) ==
        Conversion(At(format, i + 1), ArgAt(args, j)) + RenderFrom(format, i + 2, args, j + 1) &&
      NeedsFrom(format, i) == ArgKinds(At(format, i + 1)) + NeedsFrom(format, i + 2)
  {
  }

  /**
   * `tiny_printf`: walk the format up to its NUL, copying ordinary
   * characters, and after each `%` fetch and write one argument for
   * `s c d u x`, write back an unknown conversion character, or stop when
   * the format ends. Returns how many arguments were fetched.
   */
  method TinyPrintf(console: Console, format: string, args: seq<Arg>) returns (used: nat)
    requires Fits(args, Needs(format))
    modifies console
    ensures console.out == old(console.out) + Render(format, args)
    ensures used == |Needs(format)|
  {
    var i := 0;
    used := 0;
    ghost var kinds := Needs(format);
    ghost var want := old(console.out) + Render(format, args);
    while true
      invariant i <= |format| && used <= |kinds|
      invariant NeedsFrom(format, i) == kinds[used..]
      invariant console.out + RenderFrom(format, i, args, used) == want
      decreases |format| - i
    {
      RenderFromStep(format, i, args, used);
      ghost var before := console.out;
      ghost var i0 := i;
      ghost var j0 := used;
      var c := At(format, i);
      i := i + 1;
      if c == '\0' {
        assert kinds[used..] == [];
        return;
      }
      if c == '%' {
        c := At(format, i);
        i := i + 1;
        if c == '\0' {
          assert kinds[used..] == [];
          return;
        } else if ArgKinds(c) != [] {
          assert kinds[used] == ArgKinds(c)[0];
          assert kinds[used + 1..] == kinds[used..][1..];
          Convert(console, c, args[used]);
          used := used + 1;
        } else {
          console.PutChar('%');
          console.PutChar(c);
          assert console.out == before + ['%', c];
        }
      } else {
        console.PutChar(c);
      }
      Regroup(before, console.out[|before|..], RenderFrom(format, i, args, used), RenderFrom(format, i0, args, j0));
    }
  }

  /** Moving the characters just written from the rest of the output to what is written. */
  lemma Regroup(before: string, written: string, rest: string, whole: string)
    requires whole == written + rest
    ensures before + written + rest == before + whole
  {
  }

  /** The line the test driver prints. */
  lemma PrintsSixtyNine()
    ensures Render("Should be 69: %d\n", [Int(69)]) == "Should be 69: 69\n"
  {
    var a := "Should be 69: ";
    assert a + "%d\n" == "Should be 69: %d\n";
    assert '%' !in a && '\0' !in a;
    PlainPrefix(a, "%d\n", [Int(69)]);
    SixtyNineLine();
    assert a + "69\n" == "Should be 69: 69\n";
  }

  /** Text without `%` or NUL before a format is copied ahead of its output. */
  lemma PlainPrefix(a: string, b: string, args: seq<Arg>)
    requires '%' !in a && '\0' !in a
    ensures Render(a + b, args) == a + RenderFrom(b, 0, args, 0)
  {
    RenderPlain(a, args);
    AppendFrom(a, b, 0, args, 0);
  }

  lemma SixtyNineLine()
    ensures RenderFrom("%d\n", 0, [Int(69)], 0) == "69\n"
  {
    var f := "%d\n";
    var args := [Int(69)];
    SixtyNineDigits();
    assert RenderFrom(f, 3, args, 1) == [];
    assert RenderFrom(f, 2, args, 1) == "\n";
    assert RenderFrom(f, 0, args, 0) == Conversion('d', ArgAt(args, 0)) + RenderFrom(f, 2, args, 1);
  }

  lemma SixtyNineDigits()
    ensures Conversion('d', ArgAt([Int(69)], 0)) == "69"
  {
    DecimalAppend(6, 9);
    DecimalAppend(0, 6);
    assert 69 % 0x1_0000_0000 == 69;
    assert Decimal(69) == [DigitChar(6), DigitChar(9)];
  }

  /** The digits the test driver expects for `0xABCD1234`. */
  lemma HexOfPattern()
    ensures Hex8(0xABCD1234) == "ABCD1234"
  {
    HexDigitsStep(0xABCD1234, 7, 0xABCD123, 4);
    HexDigitsStep(0xABCD123, 6, 0xABCD12, 3);
    HexDigitsStep(0xABCD12, 5, 0xABCD1, 2);
    HexDigitsStep(0xABCD1, 4, 0xABCD, 1);
    HexDigitsStep(0xABCD, 3, 0xABC, 13);
    HexDigitsStep(0xABC, 2, 0xAB, 12);
    HexDigitsStep(0xAB, 1, 0xA, 11);
    HexDigitsStep(0xA, 0, 0, 10);
  }

  lemma HexDigitsStep(v: nat, n: nat, q: nat, r: nat)
    requires v == q * 16 + r && r < 16
    ensures HexDigits(v, n + 1) == HexDigits(q, n) + [HexChar(r)]
  {
    DivModUnique(v, 16, q, r);
  }

  /** `%x` of the bit pattern `0xABCD1234`, passed as a negative `int`. */
  lemma PrintsHexPattern()
    ensures Render("%x", [Int(0xABCD1234 - 0x1_0000_0000)]) == "ABCD1234"
  {
    var args := [Int(0xABCD1234 - 0x1_0000_0000)];
    DivModUnique(0xABCD1234 - 0x1_0000_0000, 0x1_0000_0000, -1, 0xABCD1234);
    HexOfPattern();
    RenderFromStep("%x", 0, args, 0);
    RenderFromStep("%x", 2, args, 1);
  }

  /** `%d` of -5 writes a minus sign and the magnitude. */
  lemma PrintsMinusFive()
    ensures Render("%d", [Int(-5)]) == "-5"
  {
    RenderFromStep("%d", 0, [Int(-5)], 0);
    RenderFromStep("%d", 2, [Int(-5)], 1);
  }

  /** `%u` of -1 writes the largest unsigned 32-bit value. */
  lemma PrintsUnsignedMax()
    ensures Render("%u", [Int(-1)]) == "4294967295"
  {
    RenderFromStep("%u", 0, [Int(-1)], 0);
    RenderFromStep("%u", 2, [Int(-1)], 1);
    DivModUnique(-1, 0x1_0000_0000, -1, 4294967295);
    DecimalOfMax();
  }

  lemma DecimalOfMax()
    ensures Decimal(4294967295) == "4294967295"
  {
    DecimalOfMaxHead();
    DecimalAppend(42949, 6);
    DecimalAppend(429496, 7);
    DecimalAppend(4294967, 2);
    DecimalAppend(42949672, 9);
    DecimalAppend(429496729, 5);
  }

  lemma DecimalOfMaxHead()
    ensures Decimal(42949) == "42949"
  {
    DecimalAppend(4, 2);
    DecimalAppend(42, 9);
    DecimalAppend(429, 4);
    DecimalAppend(4294, 9);
  }
}

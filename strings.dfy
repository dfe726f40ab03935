/**
 * The few Python `str` operations the build scripts rely on, over `seq<char>`:
 * `strip()`, `startswith`, `endswith`, `in`, `find`, `split(sep)` and `sep.join`.
 */
module Strings {
  import opened Wrappers
  import opened Seqs

  /**
   * The characters Python's `strip()` removes (`str.isspace`): the ASCII
   * controls 9-13 and 28-31, the space, and the Unicode separators and
   * spaces U+0085, U+00A0, U+1680, U+2000-U+200A, U+2028, U+2029, U+202F,
   * U+205F and U+3000.
   */
  predicate IsSpace(c: char) {
    || c == ' ' || ('\t' <= c <= '\r') || ('\U{1C}' <= c <= '\U{1F}')
    || c == '\U{85}' || c == '\U{A0}' || c == '\U{1680}'
    || ('\U{2000}' <= c <= '\U{200A}')
    || c == '\U{2028}' || c == '\U{2029}' || c == '\U{202F}' || c == '\U{205F}' || c == '\U{3000}'
  }

  predicate StartsWith(s: string, prefix: string) {
    |prefix| <= |s| && s[..|prefix|] == prefix
  }

  predicate EndsWith(s: string, suffix: string) {
    |suffix| <= |s| && s[|s| - |suffix|..] == suffix
  }

  /** `s` carries no leading and no trailing whitespace. */
  predicate Stripped(s: string) {
    s == [] || (!IsSpace(s[0]) && !IsSpace(s[|s| - 1]))
  }

  /** How many whitespace characters `s` starts with. */
  function LeadingSpaces(s: string): (n: nat)
    ensures n <= |s|
    ensures forall k :: 0 <= k < n ==> IsSpace(s[k])
    ensures n == |s| || !IsSpace(s[n])
  {
    if s != [] && IsSpace(s[0]) then 1 + LeadingSpaces(s[1..]) else 0
  }

  /** Where `s` ends once its trailing whitespace, down to index `from`, is dropped. */
  function TrimmedEnd(s: string, from: nat): (j: nat)
    requires from <= |s|
    ensures from <= j <= |s|
    ensures forall k :: j <= k < |s| ==> IsSpace(s[k])
    ensures j == from || !IsSpace(s[j - 1])
  {
    if |s| > from && IsSpace(s[|s| - 1]) then TrimmedEnd(s[..|s| - 1], from) else |s|
  }

  /**
   * Python's `s.strip()`: the slice of `s` between its leading and its
   * trailing whitespace, which itself has none at either end.
   */
  function Strip(s: string): (r: string)
    ensures Stripped(r)
    ensures var i := LeadingSpaces(s);
      && i + |r| <= |s|
      && r == s[i..i + |r|]
      && (forall k :: 0 <= k < i ==> IsSpace(s[k]))
      && (forall k :: i + |r| <= k < |s| ==> IsSpace(s[k]))
  {
    var i := LeadingSpaces(s);
    s[i..TrimmedEnd(s, i)]
  }

  lemma StripOfStripped(s: string)
    requires Stripped(s)
    ensures Strip(s) == s
  {
    assert s[0..|s|] == s;
  }

  lemma StripIdempotent(s: string)
    ensures Strip(Strip(s)) == Strip(s)
  {
    StripOfStripped(Strip(s));
  }

  /** Stripping only removes characters: what is left all occurs in `s`. */
  lemma StripChars(s: string)
    ensures forall c :: c in Strip(s) ==> c in s
  {
    var i := LeadingSpaces(s);
    var r := Strip(s);
    forall c | c in r
      ensures c in s
    {
      var k :| 0 <= k < |r| && r[k] == c;
      assert s[i + k] == c;
    }
  }

  /** A text that ends in a non-space character keeps that last character through `strip()`. */
  lemma StripKeepsLast(s: string)
    requires s != [] && !IsSpace(s[|s| - 1])
    ensures Strip(s) != [] && Strip(s)[|Strip(s)| - 1] == s[|s| - 1]
  {
    var i := LeadingSpaces(s);
    assert i < |s|;
  }

  /** `sep` occurs in `s` starting at index `j`. */
  predicate OccursAt(s: string, sep: string, j: nat) {
    j + |sep| <= |s| && s[j..j + |sep|] == sep
  }

  lemma OccursAtStart(s: string, sep: string)
    ensures OccursAt(s, sep, 0) <==> StartsWith(s, sep)
  {
  }

  /** Dropping the first character shifts every occurrence down by one. */
  lemma OccursShift(s: string, sep: string, j: nat)
    requires 0 < |s|
    ensures OccursAt(s[1..], sep, j) <==> OccursAt(s, sep, j + 1)
  {
    if j + 1 + |sep| <= |s| {
      assert s[1..][j..j + |sep|] == s[j + 1..j + 1 + |sep|];
    }
  }

  /** Index of the first occurrence of `sep` in `s` (Python's `str.find`, `None` for -1). */
  function Find(s: string, sep: string): (r: Option<nat>)
    ensures r.Some? ==> OccursAt(s, sep, r.value)
    ensures r.Some? ==> forall j :: 0 <= j < r.value ==> !OccursAt(s, sep, j)
    ensures r.None? ==> forall j :: 0 <= j <= |s| ==> !OccursAt(s, sep, j)
    decreases |s|
  {
    OccursAtStart(s, sep);
    if StartsWith(s, sep) then Some(0)
    else if s == [] then None
    else
      match Find(s[1..], sep)
      case None =>
        assert forall j :: 1 <= j <= |s| ==> !OccursAt(s, sep, j) by {
          forall j | 1 <= j <= |s| ensures !OccursAt(s, sep, j) {
            OccursShift(s, sep, j - 1);
          }
        }
        None
      case Some(i) =>
        OccursShift(s, sep, i);
        assert forall j :: 1 <= j <= i ==> !OccursAt(s, sep, j) by {
          forall j | 1 <= j <= i ensures !OccursAt(s, sep, j) {
            OccursShift(s, sep, j - 1);
          }
        }
        Some(i + 1)
  }

  /** Python's `sep in s`. */
  predicate Contains(s: string, sep: string) {
    Find(s, sep).Some?
  }

  /** Python's `s.split(sep)` for a non-empty separator. */
  function Split(s: string, sep: string): (parts: seq<string>)
    requires |sep| > 0
    ensures |parts| >= 1
    decreases |s|
  {
    match Find(s, sep)
    case None => [s]
    case Some(i) => [s[..i]] + Split(s[i + |sep|..], sep)
  }

  /** Python's `sep.join(parts)`. */
  function Join(parts: seq<string>, sep: string): string
  {
    if parts == [] then []
    else if |parts| == 1 then parts[0]
    else parts[0] + sep + Join(parts[1..], sep)
  }

  /** `s.split(sep)[0]`: the text before the first `sep`, all of `s` when there is none. */
  function Before(s: string, sep: string): (r: string)
    requires |sep| > 0
    ensures StartsWith(s, r) && !Contains(r, sep)
    ensures Find(s, sep).None? ==> r == s
  {
    var r := Split(s, sep)[0];
    assert r == s[..|r|];
    NoEarlierOccurrence(s, sep, |r|);
    r
  }

  /** `s.split(sep)[-1]`: the text after the last `sep`, all of `s` when there is none. */
  function After(s: string, sep: string): (r: string)
    requires |sep| > 0
    ensures |r| <= |s| && !Contains(r, sep)
    ensures Find(s, sep).None? ==> r == s
    decreases |s|
  {
    match Find(s, sep)
    case None => s
    case Some(i) => After(s[i + |sep|..], sep)
  }

  /** The text after the last separator is a tail of `s`. */
  lemma {:induction false} AfterIsTail(s: string, sep: string)
    requires |sep| > 0
    ensures EndsWith(s, After(s, sep))
    decreases |s|
  {
    var more, k := AfterStep(s, sep);
    if more {
      AfterIsTail(s[k..], sep);
      EndsWithDrop(s, k, After(s, sep));
    } else {
      assert s[|s| - |s|..] == s;
    }
  }

  /**
   * One step of `After`: with no separator left the text itself, otherwise
   * `After` of what follows the first separator, which ends at `k`.
   */
  lemma AfterStep(s: string, sep: string) returns (more: bool, k: nat)
    requires |sep| > 0
    ensures more <==> Find(s, sep).Some?
    ensures !more ==> After(s, sep) == s
    ensures more ==> 0 < k <= |s| && k == Find(s, sep).value + |sep| && After(s, sep) == After(s[k..], sep)
  {
    more := Find(s, sep).Some?;
    if more {
      var i := Find(s, sep).value;
      assert OccursAt(s, sep, i);
      k := i + |sep|;
    } else {
      k := 0;
    }
  }

  /** A prefix of `s` that ends before the first occurrence of `sep` contains no `sep`. */
  lemma NoEarlierOccurrence(s: string, sep: string, n: nat)
    requires |sep| > 0 && n <= |s|
    requires Find(s, sep).Some? ==> n <= Find(s, sep).value
    ensures !Contains(s[..n], sep)
  {
    forall j | 0 <= j <= n
      ensures !OccursAt(s[..n], sep, j)
    {
      if j + |sep| <= n {
        assert !OccursAt(s, sep, j);
        assert s[..n][j..j + |sep|] == s[j..j + |sep|];
      }
    }
  }

  /** Joining the pieces of a split with the same separator gives back the text. */
  lemma {:induction false} JoinSplit(s: string, sep: string)
    requires |sep| > 0
    ensures Join(Split(s, sep), sep) == s
    decreases |s|
  {
    match Find(s, sep)
    case None =>
    case Some(i) =>
      var rest := s[i + |sep|..];
      var parts := Split(s, sep);
      assert parts == [s[..i]] + Split(rest, sep);
      assert parts[1..] == Split(rest, sep);
      JoinSplit(rest, sep);
      calc {
        Join(parts, sep);
        parts[0] + sep + Join(parts[1..], sep);
        s[..i] + sep + rest;
        { assert s[i..i + |sep|] == sep; }
        s;
      }
  }

  /** No proper prefix of `sep` is also a suffix, so two occurrences never overlap. */
  predicate BorderFree(sep: string) {
    forall k :: 0 < k < |sep| ==> sep[k..] != sep[..|sep| - k]
  }

  /** Two occurrences less than `|sep|` apart make the overlap a border of `sep`. */
  lemma OverlapBorder(s: string, sep: string, i: nat, j: nat)
    requires i < j < i + |sep|
    ensures OccursAt(s, sep, i) && OccursAt(s, sep, j) ==> sep[j - i..] == sep[..|sep| - (j - i)]
  {
    if OccursAt(s, sep, i) && OccursAt(s, sep, j) {
      var k := j - i;
      forall t | 0 <= t < |sep| - k
        ensures sep[k..][t] == sep[..|sep| - k][t]
      {
        assert s[i..i + |sep|][k + t] == s[j..j + |sep|][t];
      }
    }
  }

  /** Two occurrences of a border-free separator less than its length apart cannot both exist. */
  lemma NoOverlap(s: string, sep: string, i: nat, j: nat)
    requires BorderFree(sep) && i < j < i + |sep|
    ensures !(OccursAt(s, sep, i) && OccursAt(s, sep, j))
  {
    OverlapBorder(s, sep, i, j);
  }

  /** The first occurrence is at `k` when `sep` occurs there and nowhere before. */
  lemma FindAt(s: string, sep: string, k: nat)
    requires OccursAt(s, sep, k)
    requires forall j :: 0 <= j < k ==> !OccursAt(s, sep, j)
    ensures Find(s, sep) == Some(k)
  {
  }

  lemma OccursAfterPrefix(x: string, sep: string, y: string)
    ensures OccursAt(x + sep + y, sep, |x|)
  {
    assert (x + sep + y)[|x|..|x| + |sep|] == sep;
  }

  /** In `x + sep + y` with no `sep` in `x`, the first occurrence is the one after `x`. */
  lemma FirstAfter(x: string, sep: string, y: string)
    requires BorderFree(sep) && !Contains(x, sep)
    ensures Find(x + sep + y, sep) == Some(|x|)
  {
    var s := x + sep + y;
    OccursAfterPrefix(x, sep, y);
    forall j | 0 <= j < |x|
      ensures !OccursAt(s, sep, j)
    {
      if j + |sep| <= |x| {
        assert !OccursAt(x, sep, j);
        assert s[j..j + |sep|] == x[j..j + |sep|];
      } else {
        NoOverlap(s, sep, j, |x|);
      }
    }
    FindAt(s, sep, |x|);
  }

  /** `(x + sep + y).split(sep)[0] == x` when `x` holds no `sep`. */
  lemma BeforeOf(x: string, sep: string, y: string)
    requires |sep| > 0 && BorderFree(sep) && !Contains(x, sep)
    ensures Before(x + sep + y, sep) == x
  {
    FirstAfter(x, sep, y);
    assert (x + sep + y)[..|x|] == x;
  }

  /** In `x + sep + y`, the first occurrence is the one after `x` or lies wholly inside `x`. */
  lemma FirstOccurrence(x: string, sep: string, y: string)
    requires BorderFree(sep)
    ensures Find(x + sep + y, sep).Some?
    ensures var i := Find(x + sep + y, sep).value; i == |x| || i + |sep| <= |x|
  {
    var s := x + sep + y;
    OccursAfterPrefix(x, sep, y);
    var i := Find(s, sep).value;
    if |x| - |sep| < i < |x| {
      NoOverlap(s, sep, i, |x|);
    }
  }

  /** `(x + sep + y).split(sep)[-1] == y` when `y` holds no `sep`. */
  lemma {:induction false} AfterOf(x: string, sep: string, y: string)
    requires |sep| > 0 && BorderFree(sep) && !Contains(y, sep)
    ensures After(x + sep + y, sep) == y
    decreases |x|
  {
    var s := x + sep + y;
    FirstOccurrence(x, sep, y);
    var i := Find(s, sep).value;
    DropFront(x, sep, y, if i == |x| then 0 else i + |sep|);
    if i != |x| {
      AfterOf(x[i + |sep|..], sep, y);
    }
  }

  /** `(x + sep + y).split(sep) == [x, y]` when neither side holds `sep`. */
  lemma SplitTwo(x: string, sep: string, y: string)
    requires |sep| > 0 && BorderFree(sep) && !Contains(x, sep) && !Contains(y, sep)
    ensures Split(x + sep + y, sep) == [x, y]
  {
    var s := x + sep + y;
    FirstAfter(x, sep, y);
    assert s[|x| + |sep|..] == y;
    assert s[..|x|] == x;
  }

  /** A separator whose first character does not occur in `s` does not occur in `s`. */
  lemma AbsentFirstChar(s: string, sep: string)
    requires |sep| > 0 && sep[0] !in s
    ensures !Contains(s, sep)
  {
    forall j | 0 <= j <= |s|
      ensures !OccursAt(s, sep, j)
    {
      if j + |sep| <= |s| {
        assert s[j..j + |sep|][0] == s[j];
      }
    }
  }

  /** A separator whose first character does not recur in it has no border. */
  lemma UniqueHeadBorderFree(sep: string)
    requires |sep| > 0 && sep[0] !in sep[1..]
    ensures BorderFree(sep)
  {
    forall k | 0 < k < |sep|
      ensures sep[k..] != sep[..|sep| - k]
    {
      assert sep[k..][0] == sep[1..][k - 1];
    }
  }

  lemma SingleCharBorderFree(c: char)
    ensures BorderFree([c])
  {
  }

  /** For a one-character separator, containment is plain membership. */
  lemma ContainsChar(s: string, c: char)
    ensures Contains(s, [c]) <==> c in s
  {
    if c in s {
      var j :| 0 <= j < |s| && s[j] == c;
      assert s[j..j + 1] == [c];
      assert OccursAt(s, [c], j);
    }
    if Contains(s, [c]) {
      var r := Find(s, [c]).value;
      assert s[r..r + 1][0] == s[r];
    }
  }
}

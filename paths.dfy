/**
 * `pathlib.PurePosixPath` as far as the emitters use it: parsing a path
 * string into its root and its parts (empty parts and `.` dropped), `str()`,
 * the `/` operator, `parent`, `name`, `suffix`, `stem` and `with_suffix`.
 */
module Paths {
  import opened Wrappers
  import opened Seqs
  import opened Strings

  /** A part pathlib keeps: not empty, not `.`, and free of separators. */
  predicate IsPart(s: string) {
    s != [] && s != "." && '/' !in s
  }

  /** A `PurePosixPath`: its root (empty, `/` or `//`) and its parts below the root. */
  datatype PurePath = PurePath(root: string, parts: seq<string>)

  /** What parsing yields: a POSIX root and parts pathlib keeps. */
  predicate Normal(path: PurePath) {
    && (path.root == [] || path.root == "/" || path.root == "//")
    && forall k :: 0 <= k < |path.parts| ==> IsPart(path.parts[k])
  }

  /** `p.split("/")`: the pieces between separators, empty ones included. */
  function Pieces(p: string): (r: seq<string>)
    ensures |r| >= 1
    ensures forall k :: 0 <= k < |r| ==> '/' !in r[k]
  {
    if p == [] then [[]]
    else
      var rest := Pieces(p[1..]);
      if p[0] == '/' then [[]] + rest
      else
        assert forall c :: c in [p[0]] + rest[0] ==> c == p[0] || c in rest[0];
        [[p[0]] + rest[0]] + rest[1..]
  }

  /** The pieces that are parts, in order. */
  function Keep(pieces: seq<string>): (r: seq<string>)
    ensures |r| <= |pieces|
    ensures forall k :: 0 <= k < |r| ==> IsPart(r[k])
  {
    if pieces == [] then []
    else (if IsPart(pieces[0]) then [pieces[0]] else []) + Keep(pieces[1..])
  }

  /**
   * The root `splitroot` finds: `//` for exactly two leading separators,
   * `/` for one or more than two, none for a relative path.
   */
  function RootOf(p: string): string {
    if |p| >= 2 && p[0] == '/' && p[1] == '/' && !(|p| >= 3 && p[2] == '/') then "//"
    else if p != [] && p[0] == '/' then "/"
    else []
  }

  /** `PurePosixPath(p)`. */
  function Parse(p: string): (r: PurePath)
    ensures Normal(r)
    ensures p == [] || p[0] != '/' ==> r.root == []
  {
    PurePath(RootOf(p), Keep(Pieces(p)))
  }

  /** `str(path)`: the root, then the parts joined with `/`; `.` for the empty path. */
  function Str(path: PurePath): string {
    if path.root == [] && path.parts == [] then "." else path.root + Join(path.parts, "/")
  }

  /** `a / b`: a `b` with a root replaces `a`; otherwise its parts follow those of `a`. */
  function Slash(a: PurePath, b: PurePath): PurePath {
    if b.root != [] then b else PurePath(a.root, a.parts + b.parts)
  }

  /** `parent`: the path without its last part; a path without parts is its own parent. */
  function Parent(path: PurePath): PurePath {
    if path.parts == [] then path else PurePath(path.root, path.parts[..|path.parts| - 1])
  }

  /** `name`: the last part, empty for a path without parts. */
  function Name(path: PurePath): (r: string)
    ensures Normal(path) && r != [] ==> IsPart(r)
  {
    if path.parts == [] then [] else path.parts[|path.parts| - 1]
  }

  /** Index of the last `.` in `s` (Python's `rfind('.')`, `None` for -1). */
  function LastDot(s: string): (r: Option<nat>)
    ensures r.Some? ==> r.value < |s| && s[r.value] == '.' && '.' !in s[r.value + 1..]
    ensures r.None? ==> '.' !in s
  {
    if s == [] then None
    else if s[|s| - 1] == '.' then Some(|s| - 1)
    else
      var r := LastDot(s[..|s| - 1]);
      assert r.Some? ==> s[r.value + 1..] == s[..|s| - 1][r.value + 1..] + [s[|s| - 1]];
      r
  }

  /** Where the suffix of a name starts: a last dot that is neither first nor last. */
  function SuffixStart(name: string): (r: Option<nat>)
    ensures r.Some? ==> 0 < r.value < |name| - 1 && name[r.value] == '.' && '.' !in name[r.value + 1..]
  {
    match LastDot(name)
    case Some(i) => if 0 < i < |name| - 1 then Some(i) else None
    case None => None
  }

  /** `suffix`: the name from its last dot, or empty. */
  function Suffix(path: PurePath): string {
    var name := Name(path);
    match SuffixStart(name)
    case Some(i) => name[i..]
    case None => []
  }

  /** `stem`: the name without its suffix. */
  function Stem(path: PurePath): string {
    var name := Name(path);
    match SuffixStart(name)
    case Some(i) => name[..i]
    case None => name
  }

  /** What `with_suffix` accepts: empty, or a dot followed by something, never a separator. */
  predicate ValidSuffix(suffix: string) {
    '/' !in suffix && (suffix == [] || (suffix[0] == '.' && suffix != "."))
  }

  /**
   * `with_suffix`: the last part with its suffix replaced, or with the
   * suffix appended when it has none. An invalid suffix, an empty name, and
   * a new name that is no part (`..x` without its suffix is `.`) are each a
   * `ValueError` (`None`).
   */
  function WithSuffix(path: PurePath, suffix: string): (r: Option<PurePath>)
    ensures r.Some? <==> ValidSuffix(suffix) && Name(path) != [] && IsPart(Stem(path) + suffix)
    ensures r.Some? ==> Parent(r.value) == Parent(path) && Name(r.value) == Stem(path) + suffix
    ensures r.Some? && Normal(path) ==> Normal(r.value)
  {
    if !ValidSuffix(suffix) || Name(path) == [] || !IsPart(Stem(path) + suffix) then None
    else
      var init := path.parts[..|path.parts| - 1];
      assert (init + [Stem(path) + suffix])[..|init|] == init;
      Some(PurePath(path.root, init + [Stem(path) + suffix]))
  }

  /** The stem and the suffix make up the name. */
  lemma StemAndSuffix(path: PurePath)
    ensures Stem(path) + Suffix(path) == Name(path)
  {
  }

  // ---------------------------------------------------------------------------
  // Parsing

  /** A text without separators is a single piece. */
  lemma {:induction false} PiecesOfPlain(x: string)
    requires '/' !in x
    ensures Pieces(x) == [x]
    decreases |x|
  {
    if x != [] {
      assert forall c :: c in x[1..] ==> c in x;
      PiecesOfPlain(x[1..]);
      assert [x[0]] + x[1..] == x;
    }
  }

  /** The pieces of `a/b` are those of `a`, then those of `b`. */
  lemma {:induction false} PiecesAppend(a: string, b: string)
    ensures Pieces(a + "/" + b) == Pieces(a) + Pieces(b)
    decreases |a|
  {
    var s := a + "/" + b;
    if a == [] {
      assert s == "/" + b && s[1..] == b;
    } else {
      assert s[0] == a[0] && s[1..] == a[1..] + "/" + b;
      PiecesAppend(a[1..], b);
      var x := Pieces(a[1..]);
      if a[0] != '/' {
        assert (x + Pieces(b))[0] == x[0];
        assert (x + Pieces(b))[1..] == x[1..] + Pieces(b);
      }
    }
  }

  /** Splitting texts joined with `/` gives the texts back. */
  lemma {:induction false} PiecesJoin(xs: seq<string>)
    requires |xs| >= 1 && forall k :: 0 <= k < |xs| ==> '/' !in xs[k]
    ensures Pieces(Join(xs, "/")) == xs
    decreases |xs|
  {
    if |xs| == 1 {
      PiecesOfPlain(xs[0]);
    } else {
      PiecesOfPlain(xs[0]);
      PiecesJoin(xs[1..]);
      PiecesAppend(xs[0], Join(xs[1..], "/"));
      assert [xs[0]] + xs[1..] == xs;
    }
  }

  lemma {:induction false} KeepAppend(x: seq<string>, y: seq<string>)
    ensures Keep(x + y) == Keep(x) + Keep(y)
    decreases |x|
  {
    if x == [] {
      assert x + y == y;
    } else {
      assert (x + y)[0] == x[0] && (x + y)[1..] == x[1..] + y;
      KeepAppend(x[1..], y);
      var h := if IsPart(x[0]) then [x[0]] else [];
      assert h + Keep(x[1..]) + Keep(y) == h + (Keep(x[1..]) + Keep(y));
    }
  }

  lemma {:induction false} KeepParts(xs: seq<string>)
    requires forall k :: 0 <= k < |xs| ==> IsPart(xs[k])
    ensures Keep(xs) == xs
    decreases |xs|
  {
    if xs != [] {
      KeepParts(xs[1..]);
      assert [xs[0]] + xs[1..] == xs;
    }
  }

  /** Joined parts start with the first part's first character. */
  lemma {:induction false} JoinStarts(xs: seq<string>)
    requires |xs| >= 1 && xs[0] != []
    ensures Join(xs, "/") != [] && Join(xs, "/")[0] == xs[0][0]
  {
  }

  /** Parts joined with `/` parse back to those parts, below no root. */
  lemma ParseJoin(xs: seq<string>)
    requires |xs| >= 1 && forall k :: 0 <= k < |xs| ==> IsPart(xs[k])
    ensures Parse(Join(xs, "/")) == PurePath([], xs)
  {
    PiecesJoin(xs);
    KeepParts(xs);
    JoinStarts(xs);
  }

  /**
   * Parsing what `str` prints gives the path back, so the text of a
   * parsed path is its normal form.
   */
  lemma ParseStr(path: PurePath)
    requires Normal(path)
    ensures Parse(Str(path)) == path
  {
    var j := Join(path.parts, "/");
    JoinedParts(path.parts);
    if path.root == [] {
      if path.parts == [] {
        PiecesOfPlain(".");
      } else {
        assert Str(path) == j;
      }
    } else if path.root == "/" {
      assert Str(path) == "/" + j;
      RootedPieces(j);
      KeepSkipsEmpty(Pieces(j));
    } else {
      ParseStrDouble(path.parts);
    }
  }

  /** The parts of a normal path, joined, split back into themselves and start with no separator. */
  lemma JoinedParts(parts: seq<string>)
    requires forall k :: 0 <= k < |parts| ==> IsPart(parts[k])
    ensures var j := Join(parts, "/");
      && Keep(Pieces(j)) == parts
      && (j == [] <==> parts == [])
      && (j != [] ==> j[0] != '/')
  {
    if parts != [] {
      PiecesJoin(parts);
      KeepParts(parts);
      JoinStarts(parts);
      assert parts[0][0] in parts[0];
    }
  }

  lemma ParseStrDouble(parts: seq<string>)
    requires forall k :: 0 <= k < |parts| ==> IsPart(parts[k])
    ensures Parse(Str(PurePath("//", parts))) == PurePath("//", parts)
  {
    var j := Join(parts, "/");
    JoinedParts(parts);
    assert Str(PurePath("//", parts)) == "//" + j;
    DoubleRoot(j);
  }

  /** Two slashes before a relative path are its `//` root; its parts stay. */
  lemma DoubleRoot(j: string)
    requires j == [] || j[0] != '/'
    ensures RootOf("//" + j) == "//" && Keep(Pieces("//" + j)) == Keep(Pieces(j))
  {
    var t := "//" + j;
    assert t == "/" + ("/" + j);
    assert |t| >= 3 ==> t[2] == j[0];
    RootedPieces("/" + j);
    RootedPieces(j);
    KeepSkipsEmpty(Pieces(j));
    KeepSkipsEmpty([[]] + Pieces(j));
  }

  lemma RootedPieces(j: string)
    ensures Pieces("/" + j) == [[]] + Pieces(j)
  {
    assert ("/" + j)[1..] == j;
  }

  lemma KeepSkipsEmpty(xs: seq<string>)
    ensures Keep([[]] + xs) == Keep(xs)
  {
    assert ([[]] + xs)[1..] == xs;
  }

  /** The parsed form is a fixed point: printing and parsing again changes nothing. */
  lemma ParseIdempotent(p: string)
    ensures Parse(Str(Parse(p))) == Parse(p)
  {
    ParseStr(Parse(p));
  }

  /**
   * Below a relative directory, a path's parts follow the directory's,
   * whatever root the path itself would have had.
   */
  lemma ParseUnder(dir: string, p: string)
    requires dir != [] && dir[0] != '/'
    ensures Parse(dir + "/" + p) == PurePath([], Parse(dir).parts + Parse(p).parts)
  {
    PiecesAppend(dir, p);
    KeepAppend(Pieces(dir), Pieces(p));
    assert (dir + "/" + p)[0] == dir[0];
  }

  /** `/` on a relative right-hand side: the left's root, then both lists of parts. */
  lemma SlashRelative(a: string, b: string)
    requires b == [] || b[0] != '/'
    ensures Slash(Parse(a), Parse(b)) == PurePath(Parse(a).root, Parse(a).parts + Parse(b).parts)
  {
  }

  // ---------------------------------------------------------------------------
  // Names and suffixes

  /** A name ending in a one-dot suffix splits at that dot. */
  lemma OneDotSuffix(stem: string, suffix: string)
    requires stem != [] && ValidSuffix(suffix) && |suffix| >= 2 && '.' !in suffix[1..]
    ensures SuffixStart(stem + suffix) == Some(|stem|)
  {
    var t := stem + suffix;
    assert t[|stem| + 1..] == suffix[1..];
    LastDotAt(t, |stem|);
  }

  lemma LastDotAt(s: string, i: nat)
    requires i < |s| && s[i] == '.' && '.' !in s[i + 1..]
    ensures LastDot(s) == Some(i)
  {
  }

  /** A stem of a part is not empty and holds no separator. */
  lemma StemOfPart(path: PurePath)
    requires Normal(path) && Name(path) != []
    ensures Stem(path) != [] && '/' !in Stem(path)
  {
    var name := Name(path);
    match SuffixStart(name)
    case Some(i) =>
      assert forall c :: c in name[..i] ==> c in name;
    case None =>
  }

  /**
   * A one-dot suffix given to `with_suffix` on a named path succeeds and
   * becomes the suffix of the result; the stem and the parent stay.
   */
  lemma WithSuffixSuffix(path: PurePath, suffix: string)
    requires Normal(path) && Name(path) != []
    requires ValidSuffix(suffix) && |suffix| >= 2 && '.' !in suffix[1..]
    ensures WithSuffix(path, suffix).Some?
    ensures var q := WithSuffix(path, suffix).value;
      Suffix(q) == suffix && Stem(q) == Stem(path) && Parent(q) == Parent(path)
  {
    StemOfPart(path);
    var n := Stem(path) + suffix;
    assert forall c :: c in n ==> c in Stem(path) || c in suffix;
    assert n != ".";
    OneDotSuffix(Stem(path), suffix);
  }

  /**
   * `with_suffix` on `dir/p` for a relative directory: the directory's
   * parts, then the parts of `p` up to its last, then the last part's stem
   * with the new suffix. A `p` without parts puts the suffix on the
   * directory's last part.
   */
  lemma WithSuffixUnder(dir: string, p: string, suffix: string)
    requires dir != [] && dir[0] != '/' && Parse(dir).parts != []
    requires ValidSuffix(suffix) && |suffix| >= 2 && '.' !in suffix[1..]
    ensures WithSuffix(Parse(dir + "/" + p), suffix).Some?
    ensures var d := Parse(dir).parts;
      var q := Parse(p).parts;
      var r := WithSuffix(Parse(dir + "/" + p), suffix).value;
      && (q != [] ==> r == PurePath([], d + q[..|q| - 1] + [Stem(Parse(p)) + suffix]))
      && (q == [] ==> r == PurePath([], d[..|d| - 1] + [Stem(Parse(dir)) + suffix]))
  {
    ParseUnder(dir, p);
    var d := Parse(dir).parts;
    var q := Parse(p).parts;
    var whole := Parse(dir + "/" + p);
    WithSuffixSuffix(whole, suffix);
    if q != [] {
      assert (d + q)[..|d + q| - 1] == d + q[..|q| - 1];
      assert Name(whole) == Name(Parse(p));
    } else {
      assert d + q == d;
      assert Name(whole) == Name(Parse(dir));
    }
  }

  /** On `dir/stem.ext` written out in normal form, `with_suffix` swaps the one-dot suffix. */
  lemma WithSuffixOfComposed(dirParts: seq<string>, stem: string, ext: string, replacement: string)
    requires forall k :: 0 <= k < |dirParts| ==> IsPart(dirParts[k])
    requires IsPart(stem)
    requires ValidSuffix(ext) && |ext| >= 2 && '.' !in ext[1..]
    requires ValidSuffix(replacement) && |replacement| >= 2 && '.' !in replacement[1..]
    ensures var p := Parse(Join(dirParts + [stem + ext], "/"));
      && WithSuffix(p, replacement).Some?
      && Str(WithSuffix(p, replacement).value) == Join(dirParts + [stem + replacement], "/")
  {
    var xs := dirParts + [stem + ext];
    var ys := dirParts + [stem + replacement];
    SuffixedPart(dirParts, stem, ext);
    SuffixedPart(dirParts, stem, replacement);
    ParseJoin(xs);
    var p := PurePath([], xs);
    OneDotSuffix(stem, ext);
    assert Name(p) == stem + ext;
    assert xs[..|xs| - 1] == dirParts;
    assert WithSuffix(p, replacement) == Some(PurePath([], ys));
    assert Str(PurePath([], ys)) == [] + Join(ys, "/");
  }

  /** A part with a one-dot suffix appended is a part, and so are the parts before it. */
  lemma SuffixedPart(dirParts: seq<string>, stem: string, suffix: string)
    requires forall k :: 0 <= k < |dirParts| ==> IsPart(dirParts[k])
    requires IsPart(stem) && ValidSuffix(suffix) && |suffix| >= 2
    ensures IsPart(stem + suffix)
    ensures var xs := dirParts + [stem + suffix];
      forall k :: 0 <= k < |xs| ==> IsPart(xs[k])
  {
    assert forall c :: c in stem + suffix ==> c in stem || c in suffix;
    assert |stem + suffix| >= 3;
  }

  /** A path below `bin/` has `bin` for its first part and no root. */
  lemma ParseBin(rest: string)
    ensures Parse("bin/" + rest) == PurePath([], ["bin"] + Parse(rest).parts)
  {
    ParsePart("bin");
    ParseUnder("bin", rest);
    assert "bin/" + rest == "bin" + "/" + rest;
  }

  /**
   * The text `with_suffix` gives for `dir/p`, parsed again: the directory's
   * parts, the parts of `p` up to its last, then that part's stem with the
   * new suffix, which is then the suffix of the result. A `p` without parts
   * puts the suffix on the directory's last part.
   */
  lemma SuffixedUnder(dir: string, p: string, suffix: string)
    requires dir != [] && dir[0] != '/' && Parse(dir).parts != []
    requires ValidSuffix(suffix) && |suffix| >= 2 && '.' !in suffix[1..]
    ensures WithSuffix(Parse(dir + "/" + p), suffix).Some?
    ensures var d := Parse(dir).parts;
      var q := Parse(p).parts;
      var r := Parse(Str(WithSuffix(Parse(dir + "/" + p), suffix).value));
      && (q != [] ==> r == PurePath([], d + q[..|q| - 1] + [Stem(Parse(p)) + suffix]))
      && (q != [] ==> Suffix(r) == suffix && Stem(r) == Stem(Parse(p)))
      && (q == [] ==> r == PurePath([], d[..|d| - 1] + [Stem(Parse(dir)) + suffix]))
  {
    WithSuffixUnder(dir, p, suffix);
    var whole := Parse(dir + "/" + p);
    var w := WithSuffix(whole, suffix).value;
    ParseStr(w);
    if Parse(p).parts != [] {
      ParseUnder(dir, p);
      assert Name(whole) == Name(Parse(p));
      WithSuffixSuffix(whole, suffix);
    }
  }

  /** `Join` of one, two and three texts. */
  lemma JoinSmall(a: string, b: string, c: string)
    ensures Join([a], "/") == a
    ensures Join([a, b], "/") == a + "/" + b
    ensures Join([a, b, c], "/") == a + "/" + b + "/" + c
  {
    assert [a, b][1..] == [b];
    assert [a, b, c][1..] == [b, c];
    assert Join([b, c], "/") == b + "/" + c by {
      assert [b, c][1..] == [c];
    }
    assert a + "/" + (b + "/" + c) == a + "/" + b + "/" + c;
  }

  /** A single part parses to itself. */
  lemma ParsePart(x: string)
    requires IsPart(x)
    ensures Parse(x) == PurePath([], [x])
  {
    PiecesOfPlain(x);
  }

  /** Two and three parts written out with `/` parse to those parts, and print back as written. */
  lemma ParseParts(a: string, b: string, c: string)
    requires IsPart(a) && IsPart(b) && IsPart(c)
    ensures Parse(a + "/" + b) == PurePath([], [a, b])
    ensures Parse(a + "/" + b + "/" + c) == PurePath([], [a, b, c])
    ensures Str(PurePath([], [a, b])) == a + "/" + b
    ensures Str(PurePath([], [a, b, c])) == a + "/" + b + "/" + c
  {
    JoinSmall(a, b, c);
    ParseJoin([a, b]);
    ParseJoin([a, b, c]);
  }

  /**
   * `with_suffix` on `top/sub/p` for two plain parts: printed and parsed
   * again, `top`, `sub`, the parts of `p` up to its last, then that part's
   * stem with the suffix, which is then the result's suffix. A `p` without
   * parts gives `top/sub<suffix>`.
   */
  lemma SuffixedUnderDirs(top: string, sub: string, p: string, suffix: string)
    requires IsPart(top) && IsPart(sub) && '.' !in sub
    requires ValidSuffix(suffix) && |suffix| >= 2 && '.' !in suffix[1..]
    ensures WithSuffix(Parse(top + "/" + (sub + "/" + p)), suffix).Some?
    ensures var q := Parse(p).parts;
      var r := Parse(Str(WithSuffix(Parse(top + "/" + (sub + "/" + p)), suffix).value));
      && (q != [] ==> r == PurePath([], [top, sub] + q[..|q| - 1] + [Stem(Parse(p)) + suffix]))
      && (q != [] ==> Suffix(r) == suffix && Stem(r) == Stem(Parse(p)))
      && (q == [] ==> r == PurePath([], [top, sub + suffix]))
  {
    SuffixedUnderDirsSome(top, sub, p, suffix);
    if Parse(p).parts != [] {
      SuffixedUnderDirsDeep(top, sub, p, suffix);
    } else {
      SuffixedUnderDirsShallow(top, sub, p, suffix);
    }
  }

  lemma SuffixedUnderDirsSome(top: string, sub: string, p: string, suffix: string)
    requires IsPart(top) && IsPart(sub) && '.' !in sub
    requires ValidSuffix(suffix) && |suffix| >= 2 && '.' !in suffix[1..]
    ensures WithSuffix(Parse(top + "/" + (sub + "/" + p)), suffix).Some?
  {
    ParsePart(top);
    UnderPart(sub, p);
    SuffixedUnder(top, sub + "/" + p, suffix);
  }

  lemma SuffixedUnderDirsDeep(top: string, sub: string, p: string, suffix: string)
    requires IsPart(top) && IsPart(sub) && '.' !in sub
    requires ValidSuffix(suffix) && |suffix| >= 2 && '.' !in suffix[1..]
    requires Parse(p).parts != []
    requires WithSuffix(Parse(top + "/" + (sub + "/" + p)), suffix).Some?
    ensures var q := Parse(p).parts;
      var r := Parse(Str(WithSuffix(Parse(top + "/" + (sub + "/" + p)), suffix).value));
      && r == PurePath([], [top, sub] + q[..|q| - 1] + [Stem(Parse(p)) + suffix])
      && Suffix(r) == suffix && Stem(r) == Stem(Parse(p))
  {
    var rest := sub + "/" + p;
    ParsePart(top);
    UnderPart(sub, p);
    SuffixedUnder(top, rest, suffix);
    FrontUnder(top, sub, Parse(p).parts);
  }

  /** The front of `[sub] + q` under `top` is `top`, `sub`, then the front of `q`. */
  lemma FrontUnder(top: string, sub: string, q: seq<string>)
    requires q != []
    ensures var q' := [sub] + q;
      [top] + q'[..|q'| - 1] == [top, sub] + q[..|q| - 1]
  {
    var q' := [sub] + q;
    assert q'[..|q'| - 1] == [sub] + q[..|q| - 1];
  }

  lemma SuffixedUnderDirsShallow(top: string, sub: string, p: string, suffix: string)
    requires IsPart(top) && IsPart(sub) && '.' !in sub
    requires ValidSuffix(suffix) && |suffix| >= 2 && '.' !in suffix[1..]
    requires Parse(p).parts == []
    requires WithSuffix(Parse(top + "/" + (sub + "/" + p)), suffix).Some?
    ensures Parse(Str(WithSuffix(Parse(top + "/" + (sub + "/" + p)), suffix).value))
      == PurePath([], [top, sub + suffix])
  {
    var rest := sub + "/" + p;
    ParsePart(top);
    UnderPart(sub, p);
    assert Parse(rest) == PurePath([], [sub]);
    assert Stem(Parse(rest)) == sub;
    SuffixedUnder(top, rest, suffix);
    var q' := Parse(rest).parts;
    assert q'[..|q'| - 1] == [];
  }

  /** Below one plain part, a path keeps its parts and its stem. */
  lemma UnderPart(sub: string, p: string)
    requires IsPart(sub) && '.' !in sub
    ensures Parse(sub + "/" + p) == PurePath([], [sub] + Parse(p).parts)
    ensures Parse(p).parts != [] ==> Stem(Parse(sub + "/" + p)) == Stem(Parse(p))
    ensures Parse(p).parts == [] ==> Stem(Parse(sub + "/" + p)) == sub
  {
    ParsePart(sub);
    ParseUnder(sub, p);
    if Parse(p).parts == [] {
      assert LastDot(sub) == None;
    }
  }
}

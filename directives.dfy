/**
 * The directive parser of the build script: the leading block of `//!import`,
 * `//!include`, `//!wrapper` and `//!no_lint` comment lines of a `.sv`/`.svh`
 * file. Files are given as the list of their lines, each still carrying its
 * line terminator, exactly as `readlines()` yields them.
 */
module Directives {
  import opened Wrappers
  import opened Strings
  import opened Seqs

  /** What the leading block of a file declares. */
  datatype Directives = Directives(
    includes: seq<string>,
    imports: seq<string>,
    wrapper: Option<string>,
    noLint: bool)

  /** How one line is read, in the order the parser tests the prefixes. */
  datatype LineKind =
    | ImportLine(path: string)
    | IncludeLine(path: string)
    | WrapperLine(path: string)
    | NoLintLine
    | EmptyLine
    | OtherLine

  /** The text after a keyword, stripped: `line[len(keyword):].strip()`. */
  function Argument(line: string, keyword: string): string
    requires |keyword| <= |line|
  {
    Strip(line[|keyword|..])
  }

  function Classify(line: string): LineKind
  {
    if StartsWith(line, "//!import ") then ImportLine("rtl/" + Argument(line, "//!import"))
    else if StartsWith(line, "//!include ") then IncludeLine("rtl/" + Argument(line, "//!include"))
    else if StartsWith(line, "//!wrapper ") then WrapperLine("wrappers/" + Argument(line, "//!wrapper"))
    else if StartsWith(line, "//!no_lint") then NoLintLine
    else if line == "" then EmptyLine
    else OtherLine
  }

  predicate IsDirective(line: string) {
    !Classify(line).OtherLine?
  }

  /** Number of leading lines that belong to the directive block. */
  function BlockEnd(lines: seq<string>): (k: nat)
    ensures k <= |lines|
    ensures forall j :: 0 <= j < k ==> IsDirective(lines[j])
    ensures k < |lines| ==> !IsDirective(lines[k])
  {
    if lines == [] || !IsDirective(lines[0]) then 0
    else
      var k := BlockEnd(lines[1..]);
      assert forall j :: 1 <= j < k + 1 ==> lines[j] == lines[1..][j - 1];
      k + 1
  }

  // The specification of the parse, over a block, each defined by recursion on
  // the last line so that it follows the scan line by line.

  function Imports(block: seq<string>): seq<string>
  {
    if block == [] then []
    else
      Imports(block[..|block| - 1]) +
        match Classify(block[|block| - 1])
        case ImportLine(p) => [p]
        case _ => []
  }

  function Includes(block: seq<string>): seq<string>
  {
    if block == [] then []
    else
      Includes(block[..|block| - 1]) +
        match Classify(block[|block| - 1])
        case IncludeLine(p) => [p]
        case _ => []
  }

  function LastWrapper(block: seq<string>): Option<string>
  {
    if block == [] then None
    else
      match Classify(block[|block| - 1])
      case WrapperLine(p) => Some(p)
      case _ => LastWrapper(block[..|block| - 1])
  }

  predicate AnyNoLint(block: seq<string>)
  {
    block != [] && (Classify(block[|block| - 1]).NoLintLine? || AnyNoLint(block[..|block| - 1]))
  }

  /** What a file's leading directive block declares. */
  function Parse(lines: seq<string>): Directives
  {
    var block := lines[..BlockEnd(lines)];
    Directives(Includes(block), Imports(block), LastWrapper(block), AnyNoLint(block))
  }

  /** `get_includes_imports`: one pass over the lines that stops at the first non-directive. */
  method GetIncludesImports(lines: seq<string>) returns (d: Directives)
    ensures d == Parse(lines)
  {
    var includePaths: seq<string> := [];
    var importPaths: seq<string> := [];
    var wrapperPath: Option<string> := None;
    var noLint := false;
    var i := 0;
    while i < |lines|
      invariant 0 <= i <= BlockEnd(lines)
      invariant includePaths == Includes(lines[..i])
      invariant importPaths == Imports(lines[..i])
      invariant wrapperPath == LastWrapper(lines[..i])
      invariant noLint == AnyNoLint(lines[..i])
      decreases |lines| - i
    {
      ScanLineStep(lines, i);
      var line := lines[i];
      match Classify(line) {
        case ImportLine(p) => importPaths := importPaths + [p];
        case IncludeLine(p) => includePaths := includePaths + [p];
        case WrapperLine(p) => wrapperPath := Some(p);
        case NoLintLine => noLint := true;
        case EmptyLine =>
        case OtherLine => break;
      }
      i := i + 1;
    }
    d := Directives(includePaths, importPaths, wrapperPath, noLint);
  }

  /** One more line of the scan, read by its kind; a non-directive is where the block ends. */
  lemma ScanLineStep(lines: seq<string>, i: nat)
    requires i < |lines| && i <= BlockEnd(lines)
    ensures var k := Classify(lines[i]);
      && Imports(lines[..i + 1]) == Imports(lines[..i]) + (if k.ImportLine? then [k.path] else [])
      && Includes(lines[..i + 1]) == Includes(lines[..i]) + (if k.IncludeLine? then [k.path] else [])
      && LastWrapper(lines[..i + 1]) == (if k.WrapperLine? then Some(k.path) else LastWrapper(lines[..i]))
      && AnyNoLint(lines[..i + 1]) == (k.NoLintLine? || AnyNoLint(lines[..i]))
      && (k.OtherLine? <==> i == BlockEnd(lines))
  {
    PrefixStep(lines, i);
    UnfoldLast(lines[..i + 1]);
  }

  /** The block specifications, one line from the end. */
  lemma UnfoldLast(s: seq<string>)
    requires s != []
    ensures var k := Classify(s[|s| - 1]);
      && Imports(s) == Imports(s[..|s| - 1]) + (if k.ImportLine? then [k.path] else [])
      && Includes(s) == Includes(s[..|s| - 1]) + (if k.IncludeLine? then [k.path] else [])
      && LastWrapper(s) == (if k.WrapperLine? then Some(k.path) else LastWrapper(s[..|s| - 1]))
      && AnyNoLint(s) == (k.NoLintLine? || AnyNoLint(s[..|s| - 1]))
  {
  }

  /** A header keeps only the includes of its block (`HeaderFile.__init__`). */
  function HeaderIncludes(lines: seq<string>): (r: seq<string>)
    ensures r == Parse(lines).includes
  {
    Includes(lines[..BlockEnd(lines)])
  }

  // Properties of the parse.

  /**
   * Scanning stops at the first line that is not a directive: nothing after
   * it, directive or not, changes the result.
   */
  lemma StopsAtFirstNonDirective(block: seq<string>, stop: string, rest: seq<string>)
    requires forall j :: 0 <= j < |block| ==> IsDirective(block[j])
    requires !IsDirective(stop)
    ensures BlockEnd(block + [stop] + rest) == |block|
    ensures Parse(block + [stop] + rest) == Parse(block)
  {
    var lines := block + [stop] + rest;
    var k := BlockEnd(lines);
    assert forall j :: 0 <= j < |block| ==> lines[j] == block[j];
    assert lines[|block|] == stop;
    assert k == |block|;
    assert lines[..k] == block;
    assert BlockEnd(block) == |block|;
    assert block[..|block|] == block;
  }

  /** A blank line still holds its line terminator, so it ends the block. */
  lemma BlankLineEndsBlock(block: seq<string>, rest: seq<string>)
    requires forall j :: 0 <= j < |block| ==> IsDirective(block[j])
    ensures Parse(block + ["\n"] + rest) == Parse(block)
  {
    assert Classify("\n") == OtherLine;
    StopsAtFirstNonDirective(block, "\n", rest);
  }

  /** Imports are collected in declaration order: the parse of a block splits at any point. */
  lemma {:induction false} ImportsInOrder(a: seq<string>, b: seq<string>)
    ensures Imports(a + b) == Imports(a) + Imports(b)
    decreases |b|
  {
    if b == [] {
      assert a + b == a;
    } else {
      var b' := b[..|b| - 1];
      assert (a + b)[..|a + b| - 1] == a + b';
      assert (a + b)[|a + b| - 1] == b[|b| - 1];
      ImportsInOrder(a, b');
    }
  }

  /** Includes are collected in declaration order likewise. */
  lemma {:induction false} IncludesInOrder(a: seq<string>, b: seq<string>)
    ensures Includes(a + b) == Includes(a) + Includes(b)
    decreases |b|
  {
    if b == [] {
      assert a + b == a;
    } else {
      var b' := b[..|b| - 1];
      assert (a + b)[..|a + b| - 1] == a + b';
      assert (a + b)[|a + b| - 1] == b[|b| - 1];
      IncludesInOrder(a, b');
    }
  }

  /** Each import line contributes exactly `"rtl/"` plus its stripped argument. */
  lemma ImportLineContributes(line: string)
    requires StartsWith(line, "//!import ")
    ensures Imports([line]) == ["rtl/" + Strip(line[9..])]
    ensures Includes([line]) == [] && LastWrapper([line]) == None && !AnyNoLint([line])
  {
    assert [line][..0] == [];
  }

  /** How each line of a block is read. */
  function Kinds(block: seq<string>): (r: seq<LineKind>)
    ensures |r| == |block|
  {
    seq(|block|, k requires 0 <= k < |block| => Classify(block[k]))
  }

  /** `LastWrapper` on the lines' kinds. */
  function LastWrapperOf(kinds: seq<LineKind>): Option<string>
  {
    if kinds == [] then None
    else if kinds[|kinds| - 1].WrapperLine? then Some(kinds[|kinds| - 1].path)
    else LastWrapperOf(kinds[..|kinds| - 1])
  }

  lemma {:induction false} LastWrapperKinds(block: seq<string>)
    ensures LastWrapper(block) == LastWrapperOf(Kinds(block))
  {
    if block != [] {
      var n := |block| - 1;
      LastWrapperStep(block);
      LastWrapperKinds(block[..n]);
      assert Kinds(block)[..n] == Kinds(block[..n]);
    }
  }

  lemma {:induction false} WrapperIsLastOf(kinds: seq<LineKind>, j: nat)
    requires j < |kinds| && kinds[j].WrapperLine?
    requires forall k :: j < k < |kinds| ==> !kinds[k].WrapperLine?
    ensures LastWrapperOf(kinds) == Some(kinds[j].path)
  {
    var n := |kinds| - 1;
    if j < n {
      WrapperIsLastOf(kinds[..n], j);
    }
  }

  /** A later `//!wrapper` overrides an earlier one: the wrapper is that of the last wrapper line. */
  lemma WrapperIsLast(block: seq<string>, j: nat)
    requires j < |block| && Classify(block[j]).WrapperLine?
    requires forall k :: j < k < |block| ==> !Classify(block[k]).WrapperLine?
    ensures LastWrapper(block) == Some(Classify(block[j]).path)
  {
    LastWrapperKinds(block);
    WrapperIsLastOf(Kinds(block), j);
  }

  /** The wrapper of a block is its last line's, when that is a wrapper line, or the one before it. */
  lemma LastWrapperStep(block: seq<string>)
    requires block != []
    ensures var kind := Classify(block[|block| - 1]);
      LastWrapper(block) == if kind.WrapperLine? then Some(kind.path) else LastWrapper(block[..|block| - 1])
  {
  }

  /** Without any `//!wrapper` line there is no wrapper. */
  lemma {:induction false} NoWrapperLine(block: seq<string>)
    requires forall k :: 0 <= k < |block| ==> !Classify(block[k]).WrapperLine?
    ensures LastWrapper(block) == None
  {
    if block != [] {
      var n := |block| - 1;
      assert forall k :: 0 <= k < n ==> block[..n][k] == block[k];
      NoWrapperLine(block[..n]);
    }
  }

  /** `AnyNoLint` on the lines' kinds. */
  predicate AnyNoLintOf(kinds: seq<LineKind>)
  {
    kinds != [] && (kinds[|kinds| - 1].NoLintLine? || AnyNoLintOf(kinds[..|kinds| - 1]))
  }

  lemma {:induction false} AnyNoLintKinds(block: seq<string>)
    ensures AnyNoLint(block) == AnyNoLintOf(Kinds(block))
  {
    if block != [] {
      var n := |block| - 1;
      AnyNoLintKinds(block[..n]);
      assert Kinds(block)[..n] == Kinds(block[..n]);
    }
  }

  lemma {:induction false} NoLintIffOf(kinds: seq<LineKind>)
    ensures AnyNoLintOf(kinds) <==> exists j :: 0 <= j < |kinds| && kinds[j].NoLintLine?
  {
    if kinds != [] {
      var n := |kinds| - 1;
      var prefix := kinds[..n];
      NoLintIffOf(prefix);
      if AnyNoLintOf(kinds) && !kinds[n].NoLintLine? {
        var j :| 0 <= j < n && prefix[j].NoLintLine?;
        assert kinds[j] == prefix[j];
      }
      if !AnyNoLintOf(kinds) {
        forall j | 0 <= j < |kinds|
          ensures !kinds[j].NoLintLine?
        {
          if j < n {
            assert prefix[j] == kinds[j];
          }
        }
      }
    }
  }

  /** `no_lint` is set exactly when some line of the block is a `//!no_lint` line. */
  lemma NoLintIff(block: seq<string>)
    ensures AnyNoLint(block) <==> exists j :: 0 <= j < |block| && Classify(block[j]).NoLintLine?
  {
    var kinds := Kinds(block);
    AnyNoLintKinds(block);
    NoLintIffOf(kinds);
    if AnyNoLint(block) {
      var j :| 0 <= j < |kinds| && kinds[j].NoLintLine?;
      assert kinds[j] == Classify(block[j]);
    } else {
      forall j | 0 <= j < |block| ensures !Classify(block[j]).NoLintLine? {
        assert kinds[j] == Classify(block[j]);
      }
    }
  }
}

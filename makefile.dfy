/**
 * The reader of the makefile fragment Verilator generates for a module
 * (`obj_dir/V<module>_classes.mk`): comment lines are dropped, backslash
 * continuations are joined, and the lines that assign one of the six
 * file-list variables are sorted into categories. The file is given as the
 * list of its lines.
 */
module Makefile {
  import opened Wrappers
  import opened Seqs
  import opened Strings

  /** A category line without `+=`: `split("+=")[1]` raises `IndexError`. */
  datatype MakefileError = NoAssignment(line: string)

  /** Where the C++ file named by a token lives; `$VAR` expansion is the identity here. */
  function CppPrefix(global: bool): string {
    if global then "verilator/include/" else "obj_dir/"
  }

  /** How many of the tokens are not empty. */
  function NonEmptyCount(tokens: seq<string>): (n: nat)
    ensures n <= |tokens|
  {
    if tokens == [] then 0
    else NonEmptyCount(tokens[..|tokens| - 1]) + (if tokens[|tokens| - 1] == [] then 0 else 1)
  }

  /** The C++ paths of the non-empty tokens, in order, each token stripped. */
  function CppPaths(tokens: seq<string>, global: bool): (r: seq<string>)
    ensures |r| == NonEmptyCount(tokens)
  {
    if tokens == [] then []
    else
      var last := tokens[|tokens| - 1];
      CppPaths(tokens[..|tokens| - 1], global)
        + (if last == [] then [] else [CppPrefix(global) + Strip(last) + ".cpp"])
  }

  /**
   * Every non-empty token gives one path, placed after the paths of the
   * non-empty tokens before it; empty tokens give none.
   */
  lemma CppPathsEach(tokens: seq<string>, global: bool)
    ensures var r := CppPaths(tokens, global);
      forall k :: 0 <= k < |tokens| && tokens[k] != [] ==>
        NonEmptyCount(tokens[..k]) < |r| &&
        r[NonEmptyCount(tokens[..k])] == CppPrefix(global) + Strip(tokens[k]) + ".cpp"
  {
    forall k | 0 <= k < |tokens| && tokens[k] != []
      ensures NonEmptyCount(tokens[..k]) < |CppPaths(tokens, global)|
      ensures CppPaths(tokens, global)[NonEmptyCount(tokens[..k])] == CppPrefix(global) + Strip(tokens[k]) + ".cpp"
    {
      CppPathAt(tokens, global, k);
    }
  }

  /** The path of the non-empty token k comes after those of the non-empty tokens before it. */
  lemma {:induction false} CppPathAt(tokens: seq<string>, global: bool, k: nat)
    requires k < |tokens| && tokens[k] != []
    ensures NonEmptyCount(tokens[..k]) < |CppPaths(tokens, global)|
    ensures CppPaths(tokens, global)[NonEmptyCount(tokens[..k])] == CppPrefix(global) + Strip(tokens[k]) + ".cpp"
    decreases |tokens|
  {
    var n := |tokens| - 1;
    var init := tokens[..n];
    if k < n {
      CppPathAt(init, global, k);
      assert tokens[..k] == init[..k];
    } else {
      assert tokens[..k] == init;
    }
  }

  /** `_split_makefile_variable`: the files listed after the first `+=` of a line. */
  function SplitVariable(line: string, global: bool): (r: Result<seq<string>, MakefileError>)
    ensures r.Err? <==> !Contains(line, "+=")
  {
    var parts := Split(line, "+=");
    if |parts| < 2 then Err(NoAssignment(line))
    else Ok(CppPaths(Split(Strip(parts[1]), " "), global))
  }

  method SplitMakefileVariable(line: string, global: bool) returns (r: Result<seq<string>, MakefileError>)
    ensures r == SplitVariable(line, global)
  {
    var parts := Split(line, "+=");
    if |parts| < 2 {
      return Err(NoAssignment(line));
    }
    var tokens := Split(Strip(parts[1]), " ");
    var variables: seq<string> := [];
    for i := 0 to |tokens|
      invariant variables == CppPaths(tokens[..i], global)
    {
      CppPathsStep(tokens, i, global);
      var variable := tokens[i];
      if |variable| == 0 {
        continue;
      }
      variable := Strip(variable);
      if global {
        variable := "verilator/include/" + variable + ".cpp";
      } else {
        variable := "obj_dir/" + variable + ".cpp";
      }
      variables := variables + [variable];
    }
    assert tokens[..|tokens|] == tokens;
    return Ok(variables);
  }

  /** A makefile word: non-empty, without whitespace. */
  predicate Word(t: string) {
    t != [] && forall c :: c in t ==> !IsSpace(c)
  }

  /** Splitting at a one-character separator undoes joining with it. */
  lemma {:induction false} SplitJoin(parts: seq<string>, c: char)
    requires |parts| >= 1
    requires forall k :: 0 <= k < |parts| ==> c !in parts[k]
    ensures Split(Join(parts, [c]), [c]) == parts
    decreases |parts|
  {
    SingleCharBorderFree(c);
    ContainsChar(parts[0], c);
    if |parts| > 1 {
      var rest := Join(parts[1..], [c]);
      var s := parts[0] + [c] + rest;
      FirstAfter(parts[0], [c], rest);
      assert s[|parts[0]| + 1..] == rest;
      assert s[..|parts[0]|] == parts[0];
      SplitJoin(parts[1..], c);
    }
  }

  /** Words joined by single spaces begin and end with a word character, and hold no other character. */
  lemma {:induction false} JoinWords(words: seq<string>, x: char)
    requires forall k :: 0 <= k < |words| ==> Word(words[k])
    ensures Stripped(Join(words, " "))
    ensures x != ' ' && (forall k :: 0 <= k < |words| ==> x !in words[k]) ==> x !in Join(words, " ")
    ensures words != [] ==>
      Join(words, " ") != [] && !IsSpace(Join(words, " ")[0]) && !IsSpace(Join(words, " ")[|Join(words, " ")| - 1])
    decreases |words|
  {
    if |words| == 1 {
      assert words[0][0] in words[0];
      assert words[0][|words[0]| - 1] in words[0];
    } else if |words| > 1 {
      JoinWords(words[1..], x);
      var j := Join(words, " ");
      var rest := Join(words[1..], " ");
      assert j == words[0] + " " + rest;
      assert words[0][0] in words[0];
      assert j[0] == words[0][0];
      assert j[|j| - 1] == rest[|rest| - 1];
      assert forall y :: y in j ==> y in words[0] || y == ' ' || y in rest;
    }
  }

  /** One more token adds its path, unless it is empty. */
  lemma CppPathsStep(tokens: seq<string>, i: nat, global: bool)
    requires i < |tokens|
    ensures CppPaths(tokens[..i + 1], global) == CppPaths(tokens[..i], global)
      + (if tokens[i] == [] then [] else [CppPrefix(global) + Strip(tokens[i]) + ".cpp"])
  {
    assert tokens[..i + 1][..i] == tokens[..i];
  }

  /** The paths of non-empty tokens are the paths of all but the last, then the last one's. */
  lemma CppPathsLast(tokens: seq<string>, global: bool)
    requires tokens != [] && tokens[|tokens| - 1] != []
    ensures var n := |tokens| - 1;
      CppPaths(tokens, global) == CppPaths(tokens[..n], global) + [CppPrefix(global) + Strip(tokens[n]) + ".cpp"]
  {
  }

  /** A word is its own stripped form. */
  lemma WordStripped(w: string)
    requires Word(w)
    ensures Strip(w) == w
  {
    assert w[0] in w && w[|w| - 1] in w;
    StripOfStripped(w);
  }

  /** The C++ path of each word, in order. */
  predicate PathsOf(paths: seq<string>, words: seq<string>, global: bool) {
    |paths| == |words| && forall k :: 0 <= k < |words| ==> paths[k] == CppPrefix(global) + words[k] + ".cpp"
  }

  lemma {:induction false} CppPathsOfWords(words: seq<string>, global: bool)
    requires forall k :: 0 <= k < |words| ==> Word(words[k])
    ensures PathsOf(CppPaths(words, global), words, global)
    decreases |words|
  {
    if words != [] {
      var n := |words| - 1;
      var init := words[..n];
      assert forall k :: 0 <= k < |init| ==> Word(init[k]);
      CppPathsOfWords(init, global);
      WordStripped(words[n]);
      CppPathsLast(words, global);
      LastSplit(words);
      PathsAppend(CppPaths(init, global), init, words[n], global);
    }
  }

  /** Appending a word's path to the paths of the words before it. */
  lemma PathsAppend(paths: seq<string>, words: seq<string>, w: string, global: bool)
    requires PathsOf(paths, words, global)
    ensures PathsOf(paths + [CppPrefix(global) + w + ".cpp"], words + [w], global)
  {
  }

  /** A line `name += words` splits at `+=` into the name and the rest. */
  lemma AssignmentParts(name: string, words: seq<string>)
    requires !Contains(name, "+=")
    requires forall k :: 0 <= k < |words| ==> Word(words[k]) && '+' !in words[k]
    ensures Split(name + "+=" + " " + Join(words, " "), "+=") == [name, " " + Join(words, " ")]
  {
    var rest := " " + Join(words, " ");
    JoinWords(words, '+');
    assert '+' !in rest;
    AbsentFirstChar(rest, "+=");
    UniqueHeadBorderFree("+=");
    SplitTwo(name, "+=", rest);
    ConcatAssoc(name + "+=", " ", Join(words, " "));
  }

  /** The text after `+= ` lists the words' C++ files in order. */
  lemma WordsPaths(words: seq<string>, global: bool)
    requires forall k :: 0 <= k < |words| ==> Word(words[k])
    ensures PathsOf(CppPaths(Split(Strip(" " + Join(words, " ")), " "), global), words, global)
  {
    var body := Join(words, " ");
    JoinWords(words, '+');
    assert (" " + body)[1..] == body;
    assert Strip(" " + body) == body;
    var paths := CppPaths(Split(body, " "), global);
    if words == [] {
      assert Split(body, " ") == [""];
      assert paths == [];
    } else {
      forall k | 0 <= k < |words| ensures ' ' !in words[k] {
        assert IsSpace(' ');
      }
      SplitJoin(words, ' ');
      assert paths == CppPaths(words, global);
      CppPathsOfWords(words, global);
    }
  }

  /**
   * A category line written as `name += w1 w2 ... wn`, with no `+=` in the
   * name and no `+` in the words, lists the words' C++ files in order.
   */
  lemma SplitVariableOfWords(name: string, words: seq<string>, global: bool)
    requires !Contains(name, "+=")
    requires forall k :: 0 <= k < |words| ==> Word(words[k]) && '+' !in words[k]
    ensures var r := SplitVariable(name + "+=" + " " + Join(words, " "), global);
      r.Ok? && |r.value| == |words|
      && forall k :: 0 <= k < |words| ==> r.value[k] == CppPrefix(global) + words[k] + ".cpp"
  {
    AssignmentParts(name, words);
    WordsPaths(words, global);
  }

  // ---------------------------------------------------------------------------
  // Joining continuation lines

  /** The joining pass so far: the logical lines, and whether the last one continues. */
  datatype Joined = Joined(lines: seq<string>, lastPartial: bool)

  predicate IsComment(line: string) {
    |line| > 0 && line[0] == '#'
  }

  /** A pending continuation has a line to join to, and that line holds no backslash. */
  predicate Ready(j: Joined) {
    j.lastPartial ==> j.lines != [] && '\\' !in j.lines[|j.lines| - 1]
  }

  /** What is kept of a line that ends in a backslash: the text before its first backslash. */
  function Cut(joined: string): (r: string)
    ensures EndsWith(joined, "\\") ==> '\\' !in r
    ensures !EndsWith(joined, "\\") ==> r == joined
  {
    if EndsWith(joined, "\\") then
      var r := Before(joined, "\\");
      ContainsChar(r, '\\');
      r
    else joined
  }

  /** The logical lines a physical line leaves in place: all but a pending last one. */
  function Kept(j: Joined): (r: seq<string>)
    ensures |r| <= |j.lines| && r == j.lines[..|r|]
    ensures !j.lastPartial ==> r == j.lines
  {
    if j.lastPartial && j.lines != [] then j.lines[..|j.lines| - 1] else j.lines
  }

  /** A stripped physical line, joined with a space onto a pending last line. */
  function Pending(j: Joined, line: string): (r: string)
    requires Ready(j)
  {
    if j.lastPartial then j.lines[|j.lines| - 1] + " " + line else line
  }

  /** One physical line of the first loop of `_parse_makefile`. */
  function JoinLine(j: Joined, raw: string): (r: Joined)
    requires Ready(j)
    ensures Ready(r)
  {
    var line := Strip(raw);
    if IsComment(line) then j
    else
      var joined := Pending(j, line);
      StripChars(Cut(joined));
      Joined(Kept(j) + [Strip(Cut(joined))], EndsWith(joined, "\\"))
  }

  /** The logical lines of a file. */
  function Logical(raw: seq<string>): (r: Joined)
    ensures Ready(r)
  {
    if raw == [] then Joined([], false)
    else JoinLine(Logical(raw[..|raw| - 1]), raw[|raw| - 1])
  }

  /** Appending one raw line joins it onto the lines before it. */
  lemma LogicalStep(raw: seq<string>, x: string)
    ensures Logical(raw + [x]) == JoinLine(Logical(raw), x)
  {
    assert (raw + [x])[..|raw|] == raw;
  }

  /** One more raw line of a file joins onto the lines before it. */
  lemma LogicalPrefixStep(raw: seq<string>, i: nat)
    requires i < |raw|
    ensures Logical(raw[..i + 1]) == JoinLine(Logical(raw[..i]), raw[i])
  {
    assert raw[..i + 1][..i] == raw[..i];
  }

  /** Appending two raw lines joins them in turn. */
  lemma LogicalPair(raw: seq<string>, a: string, b: string)
    ensures Logical(raw + [a, b]) == JoinLine(Logical(raw + [a]), b)
  {
    assert raw + [a, b] == (raw + [a]) + [b];
    LogicalStep(raw + [a], b);
  }

  lemma EndsWithChar(s: string, c: char)
    ensures EndsWith(s, [c]) <==> s != [] && s[|s| - 1] == c
  {
    if s != [] {
      assert s[|s| - 1..] == [s[|s| - 1]];
    }
  }

  /** A joined line that ends in a non-space, or holds no backslash, leaves a line not ending in one. */
  lemma CutClean(joined: string)
    requires joined == [] || !IsSpace(joined[|joined| - 1]) || '\\' !in joined
    ensures !EndsWith(Strip(Cut(joined)), "\\")
  {
    var out := Strip(Cut(joined));
    EndsWithChar(out, '\\');
    EndsWithChar(joined, '\\');
    StripChars(Cut(joined));
    if out != [] {
      assert out[|out| - 1] in out;
    }
    if !EndsWith(joined, "\\") && joined != [] && !IsSpace(joined[|joined| - 1]) {
      StripKeepsLast(joined);
    }
  }

  /** The line a physical line adds is stripped and never ends in a backslash. */
  lemma JoinLineClean(j: Joined, raw: string)
    requires Ready(j) && !IsComment(Strip(raw))
    ensures var r := JoinLine(j, raw).lines;
      Stripped(r[|r| - 1]) && !EndsWith(r[|r| - 1], "\\")
  {
    var joined := Pending(j, Strip(raw));
    JoinLineKeeps(j, raw);
    PendingEnd(j, Strip(raw));
    CutClean(joined);
  }

  /** A pending join of a stripped line ends in a non-space or holds no backslash. */
  lemma PendingEnd(j: Joined, line: string)
    requires Ready(j) && Stripped(line)
    ensures var joined := Pending(j, line);
      joined == [] || !IsSpace(joined[|joined| - 1]) || '\\' !in joined
  {
    var joined := Pending(j, line);
    if j.lastPartial {
      var prev := j.lines[|j.lines| - 1];
      if line == [] {
        assert forall c :: c in joined ==> c in prev || c == ' ';
      } else {
        assert joined[|joined| - 1] == line[|line| - 1];
      }
    }
  }

  predicate CleanLine(line: string) {
    Stripped(line) && !EndsWith(line, "\\")
  }

  /**
   * A physical line either leaves the pass unchanged (a comment) or keeps
   * every logical line before the last one it touches.
   */
  lemma JoinLineKeeps(j: Joined, raw: string)
    requires Ready(j)
    ensures IsComment(Strip(raw)) ==> JoinLine(j, raw) == j
    ensures !IsComment(Strip(raw)) ==> var r := JoinLine(j, raw).lines;
      1 <= |r| <= |j.lines| + 1 && r[..|r| - 1] == Kept(j)
      && r[|r| - 1] == Strip(Cut(Pending(j, Strip(raw))))
  {
    if !IsComment(Strip(raw)) {
      var kept := Kept(j);
      var r := JoinLine(j, raw).lines;
      assert r == kept + [r[|r| - 1]];
    }
  }

  predicate AllClean(lines: seq<string>) {
    forall k :: 0 <= k < |lines| ==> CleanLine(lines[k])
  }

  /** A physical line keeps every logical line clean. */
  lemma JoinLineAllClean(j: Joined, raw: string)
    requires Ready(j) && AllClean(j.lines)
    ensures AllClean(JoinLine(j, raw).lines)
  {
    var r := JoinLine(j, raw);
    JoinLineKeeps(j, raw);
    if !IsComment(Strip(raw)) {
      JoinLineClean(j, raw);
      CleanExtend(j.lines, r.lines);
    }
  }

  lemma CleanExtend(before: seq<string>, after: seq<string>)
    requires AllClean(before) && 1 <= |after| <= |before| + 1 && CleanLine(after[|after| - 1])
    requires after[..|after| - 1] == before[..|after| - 1]
    ensures AllClean(after)
  {
    forall k | 0 <= k < |after| ensures CleanLine(after[k]) {
      if k < |after| - 1 {
        assert after[k] == after[..|after| - 1][k] == before[k];
      }
    }
  }

  /** Every logical line is stripped and none ends in a backslash. */
  lemma {:induction false} LogicalLinesClean(raw: seq<string>)
    ensures AllClean(Logical(raw).lines)
    decreases |raw|
  {
    if raw != [] {
      LogicalLinesClean(raw[..|raw| - 1]);
      JoinLineAllClean(Logical(raw[..|raw| - 1]), raw[|raw| - 1]);
    }
  }

  /** Every line stripped, in order. */
  function StripAll(raw: seq<string>): (r: seq<string>)
    ensures |r| == |raw| && forall k :: 0 <= k < |raw| ==> r[k] == Strip(raw[k])
  {
    if raw == [] then [] else StripAll(raw[..|raw| - 1]) + [Strip(raw[|raw| - 1])]
  }

  /** A physical line that is neither a comment nor holds a backslash. */
  predicate PlainLine(line: string) {
    !IsComment(Strip(line)) && '\\' !in line
  }

  lemma {:induction false} LogicalPlain(raw: seq<string>)
    requires forall k :: 0 <= k < |raw| ==> PlainLine(raw[k])
    ensures Logical(raw) == Joined(StripAll(raw), false)
    decreases |raw|
  {
    if raw != [] {
      var init := raw[..|raw| - 1];
      var last := raw[|raw| - 1];
      assert PlainLine(last);
      assert forall k :: 0 <= k < |init| ==> PlainLine(init[k]) by {
        forall k | 0 <= k < |init| ensures PlainLine(init[k]) {
          assert init[k] == raw[k];
        }
      }
      LogicalPlain(init);
      var line := Strip(last);
      StripChars(last);
      EndsWithChar(line, '\\');
      if line != [] {
        assert line[|line| - 1] in line;
      }
      StripIdempotent(last);
    }
  }

  /**
   * A line ending in a backslash is cut there and joined, with one space, to
   * the next physical line.
   */
  lemma ContinuationJoined(raw: seq<string>, a: string, head: string, b: string)
    requires !Logical(raw).lastPartial
    requires Strip(a) == head + "\\" && !IsComment(Strip(a)) && '\\' !in head
    requires !IsComment(Strip(b)) && '\\' !in b
    ensures Logical(raw + [a, b])
      == Joined(Logical(raw).lines + [Strip(Strip(head) + " " + Strip(b))], false)
  {
    var L := Logical(raw).lines;
    ContinuationStarts(raw, a, head);
    LogicalPair(raw, a, b);
    StripChars(head);
    ContinuationEnds(L, Strip(head), b);
  }

  /** A line ending in a backslash leaves its text before the backslash pending. */
  lemma ContinuationStarts(raw: seq<string>, a: string, head: string)
    requires !Logical(raw).lastPartial
    requires Strip(a) == head + "\\" && !IsComment(Strip(a)) && '\\' !in head
    ensures Logical(raw + [a]) == Joined(Logical(raw).lines + [Strip(head)], true)
  {
    assert (raw + [a])[..|raw|] == raw;
    var line := head + "\\";
    EndsWithChar(line, '\\');
    SingleCharBorderFree('\\');
    ContainsChar(head, '\\');
    BeforeOf(head, "\\", []);
    assert head + "\\" + [] == line;
  }

  /** The pending text and the next line, joined with a space, make one line. */
  lemma ContinuationEnds(lines: seq<string>, pending: string, b: string)
    requires '\\' !in pending && !IsComment(Strip(b)) && '\\' !in b
    ensures JoinLine(Joined(lines + [pending], true), b) == Joined(lines + [Strip(pending + " " + Strip(b))], false)
  {
    var joined := pending + " " + Strip(b);
    StripChars(b);
    assert forall c :: c in joined ==> c in pending || c == ' ' || c in Strip(b);
    EndsWithChar(joined, '\\');
    if joined != [] {
      assert joined[|joined| - 1] in joined;
    }
    assert (lines + [pending])[..|lines|] == lines;
  }

  // ---------------------------------------------------------------------------
  // Sorting lines into categories

  /** Each category maps to whether its files are global ones, and its files. */
  type Files = map<string, (bool, seq<string>)>

  const ClassCategories: seq<string> := ["VM_CLASSES_FAST", "VM_CLASSES_SLOW", "VM_SUPPORT_FAST", "VM_SUPPORT_SLOW"]
  const GlobalCategories: seq<string> := ["VM_GLOBAL_FAST", "VM_GLOBAL_SLOW"]

  const AllCategories: seq<string> := ClassCategories + GlobalCategories

  predicate IsCategory(c: string) {
    c in AllCategories
  }

  /** What a line sets for the categories in `cats`, tried in order. */
  function Record(files: Files, line: string, cats: seq<string>, global: bool): Result<Files, MakefileError>
  {
    if cats == [] then Ok(files)
    else
      match Record(files, line, cats[..|cats| - 1], global)
      case Err(e) => Err(e)
      case Ok(f) =>
        var c := cats[|cats| - 1];
        if StartsWith(line, c) then
          match SplitVariable(line, global)
          case Err(e) => Err(e)
          case Ok(paths) => Ok(f[c := (global, paths)])
        else Ok(f)
  }

  /** What one logical line sets: the class and support categories, then the global ones. */
  function RecordLine(files: Files, line: string): Result<Files, MakefileError>
  {
    match Record(files, line, ClassCategories, false)
    case Err(e) => Err(e)
    case Ok(f) => Record(f, line, GlobalCategories, true)
  }

  /** The second loop of `_parse_makefile`. */
  function Categorize(lines: seq<string>): Result<Files, MakefileError>
  {
    if lines == [] then Ok(map[])
    else
      match Categorize(lines[..|lines| - 1])
      case Err(e) => Err(e)
      case Ok(f) => RecordLine(f, lines[|lines| - 1])
  }

  /** A category line that cannot be split. */
  predicate BadLine(line: string) {
    exists c :: c in AllCategories && StartsWith(line, c) && !Contains(line, "+=")
  }

  /** `_parse_makefile` on the lines of the file. */
  method ParseMakefile(raw: seq<string>) returns (r: Result<Files, MakefileError>)
    ensures r == Categorize(Logical(raw).lines)
  {
    var lines := JoinContinuations(raw);
    var files: Files := map[];
    for i := 0 to |lines|
      invariant Categorize(lines[..i]) == Ok(files)
    {
      CategorizeStep(lines, i);
      var next := RecordCategories(files, lines[i]);
      if next.Err? {
        CategorizeErrSticks(lines, i + 1);
        return next;
      }
      files := next.value;
    }
    assert lines[..|lines|] == lines;
    return Ok(files);
  }

  lemma CategorizeStep(lines: seq<string>, i: nat)
    requires i < |lines|
    ensures Categorize(lines[..i + 1]) ==
      match Categorize(lines[..i]) case Err(e) => Err(e) case Ok(f) => RecordLine(f, lines[i])
  {
    assert lines[..i + 1][..i] == lines[..i];
  }

  /** The first loop of `_parse_makefile`: comments skipped, continuations joined. */
  method JoinContinuations(raw: seq<string>) returns (lines: seq<string>)
    ensures lines == Logical(raw).lines
  {
    lines := [];
    var lastPartial := false;
    for i := 0 to |raw|
      invariant Joined(lines, lastPartial) == Logical(raw[..i])
    {
      LogicalPrefixStep(raw, i);
      ghost var prior := Joined(lines, lastPartial);
      var line := Strip(raw[i]);
      if |line| > 0 && line[0] == '#' {
        continue;
      }
      if lastPartial {
        line := lines[|lines| - 1] + " " + line;
        lines := lines[..|lines| - 1];
      }
      ghost var joined := line;
      lastPartial := EndsWith(line, "\\");
      if lastPartial {
        line := Split(line, "\\")[0];
      }
      assert line == Cut(joined);
      lines := lines + [Strip(line)];
      assert Joined(lines, lastPartial) == JoinLine(prior, raw[i]);
    }
    assert raw[..|raw|] == raw;
  }

  /** The category loops of `_parse_makefile` for one line: class and support categories, then global ones. */
  method RecordCategories(files: Files, line: string) returns (r: Result<Files, MakefileError>)
    ensures r == RecordLine(files, line)
  {
    r := RecordGroup(files, line, ClassCategories, false);
    if r.Err? {
      return r;
    }
    r := RecordGroup(r.value, line, GlobalCategories, true);
  }

  /** One category loop: every category the line starts with is set from its split. */
  method RecordGroup(files: Files, line: string, cats: seq<string>, global: bool) returns (r: Result<Files, MakefileError>)
    ensures r == Record(files, line, cats, global)
  {
    var current := files;
    for k := 0 to |cats|
      invariant Record(files, line, cats[..k], global) == Ok(current)
    {
      RecordStep(files, line, cats, global, k);
      var category := cats[k];
      if StartsWith(line, category) {
        var paths := SplitMakefileVariable(line, global);
        if paths.Err? {
          RecordErrSticks(files, line, cats, global, k + 1);
          return Err(paths.error);
        }
        current := current[category := (global, paths.value)];
      }
    }
    assert cats[..|cats|] == cats;
    return Ok(current);
  }

  lemma RecordStep(files: Files, line: string, cats: seq<string>, global: bool, k: nat)
    requires k < |cats|
    ensures Record(files, line, cats[..k + 1], global) ==
      match Record(files, line, cats[..k], global)
      case Err(e) => Err(e)
      case Ok(f) =>
        if StartsWith(line, cats[k]) then
          match SplitVariable(line, global)
          case Err(e) => Err(e)
          case Ok(paths) => Ok(f[cats[k] := (global, paths)])
        else Ok(f)
  {
    assert cats[..k + 1][..k] == cats[..k];
  }

  lemma {:induction false} RecordErrSticks(files: Files, line: string, cats: seq<string>, global: bool, n: nat)
    requires n <= |cats| && Record(files, line, cats[..n], global).Err?
    ensures Record(files, line, cats, global) == Record(files, line, cats[..n], global)
    decreases |cats| - n
  {
    if n < |cats| {
      assert cats[..n + 1][..n] == cats[..n];
      RecordErrSticks(files, line, cats, global, n + 1);
    } else {
      assert cats[..n] == cats;
    }
  }

  lemma {:induction false} CategorizeErrSticks(lines: seq<string>, n: nat)
    requires n <= |lines| && Categorize(lines[..n]).Err?
    ensures Categorize(lines) == Categorize(lines[..n])
    decreases |lines| - n
  {
    if n < |lines| {
      assert lines[..n + 1][..n] == lines[..n];
      CategorizeErrSticks(lines, n + 1);
    } else {
      assert lines[..n] == lines;
    }
  }

  /** What `Record` does to one category: set it when the line starts with it, keep it otherwise. */
  lemma {:induction false} RecordEntry(files: Files, line: string, cats: seq<string>, global: bool, c: string)
    requires Record(files, line, cats, global).Ok?
    ensures var f := Record(files, line, cats, global).value;
      if c in cats && StartsWith(line, c) then
        SplitVariable(line, global).Ok? && c in f && f[c] == (global, SplitVariable(line, global).value)
      else (c in f <==> c in files) && (c in files ==> f[c] == files[c])
    decreases |cats|
  {
    if cats != [] {
      var init := cats[..|cats| - 1];
      RecordEntry(files, line, init, global, c);
      assert c in cats <==> c in init || c == cats[|cats| - 1];
    }
  }

  /** What one line does to a category. */
  lemma RecordLineEntry(files: Files, line: string, c: string)
    requires IsCategory(c) && RecordLine(files, line).Ok?
    ensures var global := c in GlobalCategories;
      var f := RecordLine(files, line).value;
      if StartsWith(line, c) then
        SplitVariable(line, global).Ok? && c in f && f[c] == (global, SplitVariable(line, global).value)
      else (c in f <==> c in files) && (c in files ==> f[c] == files[c])
  {
    var f1 := Record(files, line, ClassCategories, false).value;
    RecordEntry(files, line, ClassCategories, false, c);
    RecordEntry(f1, line, GlobalCategories, true, c);
  }

  /**
   * The last line that starts with a category decides its entry: earlier
   * lines for the same category are overwritten.
   */
  lemma {:induction false} LastLineWins(lines: seq<string>, c: string, j: nat)
    requires IsCategory(c) && Categorize(lines).Ok?
    requires j < |lines| && StartsWith(lines[j], c)
    requires forall k :: j < k < |lines| ==> !StartsWith(lines[k], c)
    ensures var global := c in GlobalCategories;
      SplitVariable(lines[j], global).Ok? && c in Categorize(lines).value
      && Categorize(lines).value[c] == (global, SplitVariable(lines[j], global).value)
    decreases |lines|
  {
    var init := lines[..|lines| - 1];
    var f := Categorize(init).value;
    RecordLineEntry(f, lines[|lines| - 1], c);
    if j < |lines| - 1 {
      LastLineWins(init, c, j);
    }
  }

  /** A category no line starts with has no entry. */
  lemma {:induction false} AbsentCategory(lines: seq<string>, c: string)
    requires IsCategory(c) && Categorize(lines).Ok?
    requires forall k :: 0 <= k < |lines| ==> !StartsWith(lines[k], c)
    ensures c !in Categorize(lines).value
    decreases |lines|
  {
    if lines != [] {
      var init := lines[..|lines| - 1];
      AbsentCategory(init, c);
      RecordLineEntry(Categorize(init).value, lines[|lines| - 1], c);
    }
  }

  lemma {:induction false} RecordErr(files: Files, line: string, cats: seq<string>, global: bool)
    ensures Record(files, line, cats, global).Err?
      <==> exists c :: c in cats && StartsWith(line, c) && !Contains(line, "+=")
    decreases |cats|
  {
    if cats != [] {
      var init := cats[..|cats| - 1];
      RecordErr(files, line, init, global);
      assert forall c :: c in cats <==> c in init || c == cats[|cats| - 1];
    }
  }

  /** Parsing fails exactly when some category line has no `+=`. */
  lemma {:induction false} CategorizeErr(lines: seq<string>)
    ensures Categorize(lines).Err? <==> exists k :: 0 <= k < |lines| && BadLine(lines[k])
    decreases |lines|
  {
    if lines != [] {
      var init := lines[..|lines| - 1];
      var line := lines[|lines| - 1];
      CategorizeErr(init);
      assert forall k :: 0 <= k < |init| ==> init[k] == lines[k];
      if Categorize(init).Ok? {
        var f := Categorize(init).value;
        RecordErr(f, line, ClassCategories, false);
        if Record(f, line, ClassCategories, false).Ok? {
          RecordErr(Record(f, line, ClassCategories, false).value, line, GlobalCategories, true);
        }
        assert RecordLine(f, line).Err? <==> BadLine(line);
      }
    }
  }
}

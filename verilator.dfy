/**
 * The Verilator side of the build (`VerilatorProgram`): the names derived
 * from a module's path, the one verilation step of a module, and the compile
 * and link steps of the C++ files Verilator generates for it.
 */
module Verilator {
  import opened Wrappers
  import opened Strings
  import opened Paths
  import opened Steps
  import opened Makefile
  import Registry
  import Resolver
  import Seqs

  datatype EmitError =
    | BadSuffix(path: string)                 // `with_suffix` on a path that is only a root (`ValueError`)
    | Unresolved(cause: Resolver.ResolveError)
    | BadMakefile(problem: MakefileError)
    | MissingCategory(name: string)           // `cpp_dependencies[group]` raises `KeyError`

  /** `module_name`: the last path component up to its first `.sv`. */
  function ModuleName(path: string): string {
    Before(After(path, "/"), ".sv")
  }

  /** `cpp_file`: the testbench of the module, named after the path below `rtl/`. */
  function CppFile(path: string): string {
    "tb_cpp/" + Before(After(path, "rtl/"), ".sv") + "_tb.cpp"
  }

  /** The module of `dir/m.sv` is `m`. */
  lemma ModuleNameOf(dir: string, m: string)
    requires '/' !in m && !Contains(m, ".sv")
    ensures ModuleName(dir + "/" + m + ".sv") == m
  {
    var file := m + ".sv";
    assert '/' !in file by {
      assert forall c :: c in file ==> c in m || c in ".sv";
    }
    ContainsChar(file, '/');
    SingleCharBorderFree('/');
    AfterOf(dir, "/", file);
    assert dir + "/" + m + ".sv" == dir + "/" + file;
    UniqueHeadBorderFree(".sv");
    BeforeOf(m, ".sv", []);
    assert m + ".sv" + [] == file;
  }

  /** The testbench of `x/rtl/y.sv` is `tb_cpp/y_tb.cpp`. */
  lemma CppFileOf(x: string, y: string)
    requires !Contains(y, "rtl/") && !Contains(y, ".sv")
    ensures CppFile(x + "rtl/" + y + ".sv") == "tb_cpp/" + y + "_tb.cpp"
  {
    RtlTail(x, y);
    SvStem(y);
  }

  /** What follows `rtl/` in `x/rtl/y.sv` is `y.sv`. */
  lemma RtlTail(x: string, y: string)
    requires !Contains(y, "rtl/")
    ensures After(x + "rtl/" + y + ".sv", "rtl/") == y + ".sv"
  {
    var tail := y + ".sv";
    forall j | 0 <= j <= |tail|
      ensures !OccursAt(tail, "rtl/", j)
    {
      NoRtlAt(y, j);
    }
    UniqueHeadBorderFree("rtl/");
    AfterOf(x, "rtl/", tail);
    assert x + "rtl/" + y + ".sv" == x + "rtl/" + tail;
  }

  /** What precedes `.sv` in `y.sv` is `y`. */
  lemma SvStem(y: string)
    requires !Contains(y, ".sv")
    ensures Before(y + ".sv", ".sv") == y
  {
    UniqueHeadBorderFree(".sv");
    BeforeOf(y, ".sv", []);
    assert y + ".sv" + [] == y + ".sv";
  }

  lemma NoRtlAt(y: string, j: nat)
    requires !Contains(y, "rtl/")
    ensures !OccursAt(y + ".sv", "rtl/", j)
  {
    var tail := y + ".sv";
    if j + 4 <= |y| {
      assert tail[j..j + 4] == y[j..j + 4];
      assert !OccursAt(y, "rtl/", j);
    } else if j + 4 <= |tail| {
      var k := j + 3 - |y|;
      assert tail[j + 3] == ".sv"[k];
      assert tail[j..j + 4][3] == tail[j + 3];
    }
  }

  // ---------------------------------------------------------------------------
  // Verilation

  /** The log of a module: `bin/lint/<path>` with the suffix `.log`; below `bin/lint` there is always a name. */
  function LogPath(path: string): string
  {
    LogPathShape(path);
    Str(WithSuffix(Parse("bin/lint/" + path), ".log").value)
  }

  /**
   * The log sits in `bin/lint/` followed by the directory parts of the
   * module's path (in pathlib's normal form) and is named after the path's
   * stem with `.log`. A path without parts gives `bin/lint.log`.
   */
  lemma LogPathShape(path: string)
    ensures WithSuffix(Parse("bin/lint/" + path), ".log").Some?
    ensures var q := Parse(path).parts;
      var log := Parse(Str(WithSuffix(Parse("bin/lint/" + path), ".log").value));
      && (q != [] ==> log == PurePath([], ["bin", "lint"] + q[..|q| - 1] + [Stem(Parse(path)) + ".log"]))
      && (q != [] ==> Suffix(log) == ".log" && Stem(log) == Stem(Parse(path)))
      && (q == [] ==> log == PurePath([], ["bin", "lint.log"]))
  {
    assert "bin/lint/" + path == "bin" + "/" + ("lint" + "/" + path);
    SuffixedUnderDirs("bin", "lint", path, ".log");
    assert "lint" + ".log" == "lint.log";
  }

  /** `" ".join(verilator_args)`, with `None` taken as no arguments. */
  function ArgsText(args: Option<seq<string>>): string {
    match args
    case None => []
    case Some(a) => Join(a, " ")
  }

  /** The single step `write_ninja_build_verilate` emits, given the cached dependencies. */
  function VerilateSteps(source: Registry.Source, moduleName: string, lintOnly: bool,
                         cache: Option<seq<string>>, args: Option<seq<string>>): (r: Result<seq<Step>, EmitError>)
    ensures source.noLint ==> r == Ok([])
    ensures !source.noLint ==> (r.Ok? <==> cache.Some?)
    ensures !source.noLint && cache.None? ==> r == Err(Unresolved(Resolver.NoSourceFiles(source.path)))
    ensures !source.noLint && r.Ok? ==>
      && |r.value| == 1
      && r.value[0].rule == (if lintOnly then "verilator_lint" else "verilator_verilate")
      && r.value[0].inputs == cache.value
      && r.value[0].outputs == [LogPath(source.path)]
      && r.value[0].implicit == []
      && r.value[0].variables == [("name", moduleName), ("args", ArgsText(args))]
  {
    if source.noLint then Ok([])
    else
      match cache
      case None => Err(Unresolved(Resolver.NoSourceFiles(source.path)))
      case Some(deps) =>
        Ok([Step([LogPath(source.path)], if lintOnly then "verilator_lint" else "verilator_verilate", deps, [],
                 [("name", moduleName), ("args", ArgsText(args))])])
  }

  // ---------------------------------------------------------------------------
  // Compilation

  const FastGroups: seq<string> := ["VM_CLASSES_FAST", "VM_SUPPORT_FAST", "VM_GLOBAL_FAST"]
  const SlowGroups: seq<string> := ["VM_CLASSES_SLOW", "VM_SUPPORT_SLOW", "VM_GLOBAL_SLOW"]

  /** Files of the fast categories compile with `-O2`. */
  predicate IsFast(group: string) {
    group in FastGroups
  }

  /**
   * Where a listed file is compiled from and to, as `str` prints them: a
   * global file from its own path to `bin/obj_dir/<stem>.o`, any other from
   * `bin / path` to the same with the suffix `.o`. `None` when `with_suffix`
   * raises, which takes a path that is only a root (`bin / "/"` is `/`).
   */
  function ObjectOf(isGlobal: bool, sourcePath: string): (r: Option<(string, string)>)
    ensures r.None? <==> !isGlobal && Parse(sourcePath).root != [] && Parse(sourcePath).parts == []
  {
    if isGlobal then Some((Str(Parse(sourcePath)), Str(Parse("bin/obj_dir/" + Stem(Parse(sourcePath)) + ".o"))))
    else
      var source := Slash(BinDir, Parse(sourcePath));
      BinSourceNamed(sourcePath);
      match WithSuffix(source, ".o")
      case None => None
      case Some(o) => Some((Str(source), Str(o)))
  }

  /** `Path("bin")`. */
  const BinDir := PurePath([], ["bin"])

  /** `bin / path` has a name to suffix unless the path is only a root. */
  lemma BinSourceNamed(sourcePath: string)
    ensures var source := Slash(BinDir, Parse(sourcePath));
      WithSuffix(source, ".o").Some? <==> !(Parse(sourcePath).root != [] && Parse(sourcePath).parts == [])
  {
    var source := Slash(BinDir, Parse(sourcePath));
    if Name(source) != [] {
      WithSuffixSuffix(source, ".o");
    }
  }

  /** A global file `verilator/include/v.cpp` compiles from itself to `bin/obj_dir/v.o`. */
  lemma GlobalObject(v: string)
    requires IsPart(v)
    ensures ObjectOf(true, "verilator/include/" + v + ".cpp")
      == Some(("verilator/include/" + v + ".cpp", "bin/obj_dir/" + v + ".o"))
  {
    GlobalSource(v);
    GlobalObjectPath(v);
  }

  /** `verilator/include/v.cpp` parses to its three parts, with stem `v`. */
  lemma GlobalSource(v: string)
    requires IsPart(v)
    ensures var p := Parse("verilator/include/" + v + ".cpp");
      && Str(p) == "verilator/include/" + v + ".cpp" && Stem(p) == v
  {
    var file := v + ".cpp";
    SuffixedPart([], v, ".cpp");
    assert "verilator/include/" + v + ".cpp" == "verilator" + "/" + "include" + "/" + file;
    ParseParts("verilator", "include", file);
    assert '.' !in ".cpp"[1..];
    OneDotSuffix(v, ".cpp");
  }

  /** `bin/obj_dir/v.o` prints back as itself. */
  lemma GlobalObjectPath(v: string)
    requires IsPart(v)
    ensures Str(Parse("bin/obj_dir/" + v + ".o")) == "bin/obj_dir/" + v + ".o"
  {
    SuffixedPart([], v, ".o");
    assert "bin/obj_dir/" + v + ".o" == "bin" + "/" + "obj_dir" + "/" + (v + ".o");
    ParseParts("bin", "obj_dir", v + ".o");
  }

  /** A generated file `obj_dir/v.cpp` compiles from `bin/obj_dir/v.cpp` to `bin/obj_dir/v.o`. */
  lemma ClassObject(v: string)
    requires IsPart(v)
    ensures ObjectOf(false, "obj_dir/" + v + ".cpp")
      == Some(("bin/obj_dir/" + v + ".cpp", "bin/obj_dir/" + v + ".o"))
  {
    var file := v + ".cpp";
    var obj := v + ".o";
    ClassSource(v);
    ClassObjectPath(v);
    ParseParts("bin", "obj_dir", file);
    ParseParts("bin", "obj_dir", obj);
    ClassNames(v);
  }

  /** The two paths of a generated file, spelled part by part. */
  lemma ClassNames(v: string)
    ensures "bin/obj_dir/" + v + ".cpp" == "bin" + "/" + "obj_dir" + "/" + (v + ".cpp")
    ensures "bin/obj_dir/" + v + ".o" == "bin" + "/" + "obj_dir" + "/" + (v + ".o")
  {
  }

  /** `bin / "obj_dir/v.cpp"` is `bin/obj_dir/v.cpp`. */
  lemma ClassSource(v: string)
    requires IsPart(v)
    ensures Slash(BinDir, Parse("obj_dir/" + v + ".cpp")) == PurePath([], ["bin", "obj_dir", v + ".cpp"])
  {
    var file := v + ".cpp";
    SuffixedPart([], v, ".cpp");
    assert "obj_dir/" + v + ".cpp" == "obj_dir" + "/" + file;
    ParseParts("obj_dir", file, file);
  }

  /** `bin/obj_dir/v.cpp` with the suffix `.o` is `bin/obj_dir/v.o`. */
  lemma ClassObjectPath(v: string)
    requires IsPart(v)
    ensures WithSuffix(PurePath([], ["bin", "obj_dir", v + ".cpp"]), ".o")
      == Some(PurePath([], ["bin", "obj_dir", v + ".o"]))
  {
    var source := PurePath([], ["bin", "obj_dir", v + ".cpp"]);
    SuffixedPart([], v, ".o");
    assert '.' !in ".cpp"[1..];
    OneDotSuffix(v, ".cpp");
    assert Stem(source) == v;
    assert source.parts[..2] + [v + ".o"] == ["bin", "obj_dir", v + ".o"];
  }

  function CompileArgs(fast: bool): string {
    if fast then "-O2" else ""
  }

  /** The compile step of one listed file: from its source to its object, `-O2` when fast. */
  function CompileStep(isGlobal: bool, sourcePath: string, fast: bool): (r: Result<Step, EmitError>)
    ensures r.Ok? <==> ObjectOf(isGlobal, sourcePath).Some?
    ensures r.Ok? ==>
      && r.value.rule == "verilator_compile"
      && r.value.inputs == [ObjectOf(isGlobal, sourcePath).value.0]
      && r.value.outputs == [ObjectOf(isGlobal, sourcePath).value.1]
      && r.value.implicit == []
      && r.value.variables == [("args", CompileArgs(fast))]
  {
    match ObjectOf(isGlobal, sourcePath)
    case None => Err(BadSuffix(Str(Parse(sourcePath))))
    case Some((src, obj)) => Ok(Step([obj], "verilator_compile", [src], [], [("args", CompileArgs(fast))]))
  }

  /** The compile steps of one category's files, in order; the first file that fails stops them. */
  function GroupSteps(isGlobal: bool, paths: seq<string>, fast: bool): (r: Result<seq<Step>, EmitError>)
    ensures r.Ok? ==> |r.value| == |paths|
  {
    Sequence(CompileResults(isGlobal, paths, fast))
  }

  /** The compile step of each listed file, in order. */
  function CompileResults(isGlobal: bool, paths: seq<string>, fast: bool): (r: seq<Result<Step, EmitError>>)
    ensures |r| == |paths|
  {
    Seqs.Map((path: string) => CompileStep(isGlobal, path, fast), paths)
  }

  /** The k-th result is the compile step of the k-th file. */
  lemma CompileResultsAt(isGlobal: bool, paths: seq<string>, fast: bool, k: nat)
    requires k < |paths|
    ensures CompileResults(isGlobal, paths, fast)[k] == CompileStep(isGlobal, paths[k], fast)
  {
    Seqs.MapAt((path: string) => CompileStep(isGlobal, path, fast), paths, k);
  }

  /**
   * A category's steps exist exactly when every file's step does, and then
   * the k-th step is the compile step of the k-th file.
   */
  lemma GroupStepsEach(isGlobal: bool, paths: seq<string>, fast: bool)
    ensures var r := GroupSteps(isGlobal, paths, fast);
      && (r.Ok? <==> forall k :: 0 <= k < |paths| ==> CompileStep(isGlobal, paths[k], fast).Ok?)
      && (r.Ok? ==> forall k :: 0 <= k < |paths| ==> r.value[k] == CompileStep(isGlobal, paths[k], fast).value)
  {
    var results := CompileResults(isGlobal, paths, fast);
    if Sequence(results).Ok? {
      forall k | 0 <= k < |paths|
        ensures CompileStep(isGlobal, paths[k], fast).Ok?
        ensures Sequence(results).value[k] == CompileStep(isGlobal, paths[k], fast).value
      {
        SequenceAt(results, k);
        CompileResultsAt(isGlobal, paths, fast, k);
      }
    } else {
      var k := SequenceFails(results);
      CompileResultsAt(isGlobal, paths, fast, k);
    }
  }

  /** How many files the categories list. */
  function Total(files: Files, groups: seq<string>): nat
  {
    if groups == [] then 0
    else
      var g := groups[|groups| - 1];
      Total(files, groups[..|groups| - 1]) + (if g in files then |files[g].1| else 0)
  }

  /** The compile steps of one category; a category missing from the makefile is an error. */
  function GroupResult(files: Files, group: string): (r: Result<seq<Step>, EmitError>)
    ensures r.Ok? ==> group in files && |r.value| == |files[group].1|
  {
    if group !in files then Err(MissingCategory(group))
    else GroupSteps(files[group].0, files[group].1, IsFast(group))
  }

  /** The compile steps of the categories, in order; a missing category is an error. */
  function ObjectSteps(files: Files, groups: seq<string>): (r: Result<seq<Step>, EmitError>)
    ensures r.Ok? ==> |r.value| == Total(files, groups)
  {
    ChainTotal(files, groups);
    Chain(GroupResults(files, groups))
  }

  /** The compile steps of each category, in order. */
  function GroupResults(files: Files, groups: seq<string>): (r: seq<Result<seq<Step>, EmitError>>)
    ensures |r| == |groups|
  {
    Seqs.Map((group: string) => GroupResult(files, group), groups)
  }

  /** The k-th result is the compile steps of the k-th category. */
  lemma GroupResultsAt(files: Files, groups: seq<string>, k: nat)
    requires k < |groups|
    ensures GroupResults(files, groups)[k] == GroupResult(files, groups[k])
  {
    Seqs.MapAt((group: string) => GroupResult(files, group), groups, k);
  }

  /** The categories of two runs give the results of the first run, then the second. */
  lemma GroupResultsAppend(files: Files, a: seq<string>, b: seq<string>)
    ensures GroupResults(files, a + b) == GroupResults(files, a) + GroupResults(files, b)
  {
    Seqs.MapAppend((group: string) => GroupResult(files, group), a, b);
  }

  /** The results of the first categories are the first results. */
  lemma GroupResultsPrefix(files: Files, groups: seq<string>, n: nat)
    requires n <= |groups|
    ensures GroupResults(files, groups)[..n] == GroupResults(files, groups[..n])
  {
    Seqs.SplitAt(groups, n);
    GroupResultsAppend(files, groups[..n], groups[n..]);
    Seqs.PartsOf(GroupResults(files, groups[..n]), GroupResults(files, groups[n..]));
  }

  /** The chained runs of the categories hold as many steps as the categories list files. */
  lemma {:induction false} ChainTotal(files: Files, groups: seq<string>)
    ensures var r := Chain(GroupResults(files, groups));
      r.Ok? ==> |r.value| == Total(files, groups)
    decreases |groups|
  {
    if groups != [] {
      var n := |groups| - 1;
      GroupResultsPrefix(files, groups, n);
      ChainTotal(files, groups[..n]);
    }
  }

  /**
   * When the compile steps exist, every category is in the makefile and its
   * steps sit right after those of the categories before it.
   */
  lemma ObjectStepsGroup(files: Files, groups: seq<string>, j: nat) returns (at: nat)
    requires ObjectSteps(files, groups).Ok? && j < |groups|
    ensures groups[j] in files && GroupResult(files, groups[j]).Ok?
    ensures at == Total(files, groups[..j])
    ensures var steps := ObjectSteps(files, groups).value;
      var run := GroupResult(files, groups[j]).value;
      && |run| == |files[groups[j]].1|
      && at + |run| <= |steps|
      && steps[at..at + |run|] == run
  {
    at := Total(files, groups[..j]);
    var runs := GroupResults(files, groups);
    GroupResultsPrefix(files, groups, j);
    GroupResultsAt(files, groups, j);
    ChainTotal(files, groups[..j]);
    ChainRun(runs, j, GroupResults(files, groups[..j]), GroupResult(files, groups[j]), at);
  }

  /** The i-th step of a category's run is the compile step of its i-th file. */
  lemma GroupResultAt(files: Files, g: string, i: nat)
    requires GroupResult(files, g).Ok? && i < |files[g].1|
    ensures CompileStep(files[g].0, files[g].1[i], IsFast(g)).Ok?
    ensures GroupResult(files, g).value[i] == CompileStep(files[g].0, files[g].1[i], IsFast(g)).value
  {
    var results := CompileResults(files[g].0, files[g].1, IsFast(g));
    SequenceAt(results, i);
    CompileResultsAt(files[g].0, files[g].1, IsFast(g), i);
  }

  /**
   * When the compile steps exist, the i-th file of the j-th category has
   * its compile step right after the files of the categories before it.
   */
  lemma ObjectStepsEach(files: Files, groups: seq<string>, j: nat, i: nat) returns (at: nat)
    requires ObjectSteps(files, groups).Ok? && j < |groups|
    ensures groups[j] in files
    ensures at == Total(files, groups[..j])
    ensures var g := groups[j];
      var steps := ObjectSteps(files, groups).value;
      i < |files[g].1| ==>
        && at + i < |steps|
        && CompileStep(files[g].0, files[g].1[i], IsFast(g)).Ok?
        && steps[at + i] == CompileStep(files[g].0, files[g].1[i], IsFast(g)).value
  {
    at := ObjectStepsGroup(files, groups, j);
    var g := groups[j];
    if i < |files[g].1| {
      ObjectStepsGroupAt(files, groups, j, at, i);
      GroupResultAt(files, g, i);
    }
  }

  /** The i-th step of the j-th category's run sits i steps after the run's start. */
  lemma ObjectStepsGroupAt(files: Files, groups: seq<string>, j: nat, at: nat, i: nat)
    requires ObjectSteps(files, groups).Ok? && j < |groups| && at == Total(files, groups[..j])
    requires GroupResult(files, groups[j]).Ok? && i < |GroupResult(files, groups[j]).value|
    ensures at + i < |ObjectSteps(files, groups).value|
    ensures ObjectSteps(files, groups).value[at + i] == GroupResult(files, groups[j]).value[i]
  {
    var runs := GroupResults(files, groups);
    GroupResultsPrefix(files, groups, j);
    ChainAt(runs, j);
    ChainTotal(files, groups[..j]);
    GroupResultsAt(files, groups, j);
    ChainElement(runs, j, at, i);
  }

  /** One more category after the others. */
  lemma ObjectStepsSnoc(files: Files, groups: seq<string>, g: string)
    ensures ObjectSteps(files, groups + [g]) == Extend(ObjectSteps(files, groups), GroupResult(files, g))
  {
    GroupResultsAppend(files, groups, [g]);
    ChainSnoc(GroupResults(files, groups), GroupResult(files, g));
  }

  function LinkStep(moduleName: string, cppFile: string, objects: seq<string>): Step
  {
    Step(["bin/" + moduleName + "_simulator"], "verilator_link", objects + [cppFile], [], [("args", "-O2")])
  }

  /** What `write_ninja_build_verilate_compile` emits once the makefile is parsed. */
  function CompileStepsOf(files: Files, moduleName: string, cppFile: string)
    : (r: Result<seq<Step>, EmitError>)
    ensures r.Ok? <==> ObjectSteps(files, FastGroups + SlowGroups).Ok?
    ensures r.Ok? ==> |r.value| >= 1 && r.value[|r.value| - 1].outputs == ["bin/" + moduleName + "_simulator"]
    ensures r.Ok? ==> var link := r.value[|r.value| - 1];
      && link.rule == "verilator_link"
      && link.inputs == Outputs(r.value[..|r.value| - 1]) + [cppFile]
      && link.implicit == []
      && link.variables == [("args", "-O2")]
  {
    match ObjectSteps(files, FastGroups + SlowGroups)
    case Err(e) => Err(e)
    case Ok(steps) =>
      var all := steps + [LinkStep(moduleName, cppFile, Outputs(steps))];
      assert all[..|all| - 1] == steps;
      Ok(all)
  }

  /** What `write_ninja_build_verilate_compile` emits for the lines of the generated makefile. */
  function CompileSteps(makefileLines: seq<string>, moduleName: string, cppFile: string)
    : (r: Result<seq<Step>, EmitError>)
    ensures Categorize(Logical(makefileLines).lines).Err? ==>
      r == Err(BadMakefile(Categorize(Logical(makefileLines).lines).error))
    ensures Categorize(Logical(makefileLines).lines).Ok? ==>
      r == CompileStepsOf(Categorize(Logical(makefileLines).lines).value, moduleName, cppFile)
  {
    match Categorize(Logical(makefileLines).lines)
    case Err(e) => Err(BadMakefile(e))
    case Ok(files) => CompileStepsOf(files, moduleName, cppFile)
  }

  /** The compile steps of two runs of categories are those of the first run, then the second. */
  lemma ObjectStepsAppend(files: Files, a: seq<string>, b: seq<string>)
    ensures ObjectSteps(files, a + b) == Extend(ObjectSteps(files, a), ObjectSteps(files, b))
  {
    GroupResultsAppend(files, a, b);
    ChainAppend(GroupResults(files, a), GroupResults(files, b));
  }

  /** Every step of categories that agree on speed carries that speed's arguments. */
  lemma {:induction false} GroupsArgs(files: Files, groups: seq<string>, fast: bool)
    requires ObjectSteps(files, groups).Ok?
    requires forall k :: 0 <= k < |groups| ==> IsFast(groups[k]) == fast
    ensures var steps := ObjectSteps(files, groups).value;
      forall k :: 0 <= k < |steps| ==> steps[k].variables == [("args", CompileArgs(fast))]
    decreases |groups|
  {
    if groups != [] {
      var n := |groups| - 1;
      var init := groups[..n];
      GroupsArgs(files, init, fast);
      var prior := ObjectSteps(files, init);
      var more := GroupResult(files, groups[n]);
      assert ObjectSteps(files, groups) == Extend(prior, more);
      assert IsFast(groups[n]) == fast;
      GroupArgs(files, groups[n]);
      var steps := ObjectSteps(files, groups).value;
      forall k | 0 <= k < |steps|
        ensures steps[k].variables == [("args", CompileArgs(fast))]
      {
        if k < |prior.value| {
          assert steps[k] == prior.value[k];
        } else {
          assert steps[k] == more.value[k - |prior.value|];
        }
      }
    }
  }

  /** Every step of one category carries that category's arguments. */
  lemma GroupArgs(files: Files, group: string)
    requires GroupResult(files, group).Ok?
    ensures var steps := GroupResult(files, group).value;
      forall k :: 0 <= k < |steps| ==> steps[k].variables == [("args", CompileArgs(IsFast(group)))]
  {
    GroupStepsEach(files[group].0, files[group].1, IsFast(group));
  }

  /**
   * The compile steps list the fast categories' files first, each with
   * `-O2`, then the slow categories' files with no arguments; the link step
   * comes last.
   */
  lemma FastThenSlow(files: Files, moduleName: string, cppFile: string)
    requires CompileStepsOf(files, moduleName, cppFile).Ok?
    ensures var steps := CompileStepsOf(files, moduleName, cppFile).value;
      var fast := Total(files, FastGroups);
      && |steps| == Total(files, FastGroups + SlowGroups) + 1
      && fast <= |steps| - 1
      && (forall k :: 0 <= k < fast ==> steps[k].variables == [("args", "-O2")])
      && (forall k :: fast <= k < |steps| - 1 ==> steps[k].variables == [("args", "")])
  {
    ObjectStepsAppend(files, FastGroups, SlowGroups);
    FastGroupsAreFast();
    GroupsArgs(files, FastGroups, true);
    GroupsArgs(files, SlowGroups, false);
    var a := ObjectSteps(files, FastGroups).value;
    var b := ObjectSteps(files, SlowGroups).value;
    var steps := CompileStepsOf(files, moduleName, cppFile).value;
    assert steps[..|steps| - 1] == a + b;
    forall k | 0 <= k < |a| ensures steps[k].variables == [("args", "-O2")] {
      assert steps[k] == (a + b)[k];
    }
    forall k | |a| <= k < |steps| - 1 ensures steps[k].variables == [("args", "")] {
      assert steps[k] == (a + b)[k];
    }
  }

  lemma FastGroupsAreFast()
    ensures forall k :: 0 <= k < |FastGroups| ==> IsFast(FastGroups[k])
    ensures forall k :: 0 <= k < |SlowGroups| ==> !IsFast(SlowGroups[k])
  {
  }

  /** A category missing from the makefile stops the compile steps with its name. */
  lemma {:induction false} FirstMissingCategory(files: Files, groups: seq<string>, j: nat)
    requires j < |groups| && groups[j] !in files
    requires forall k :: 0 <= k < j ==> groups[k] in files
    requires ObjectSteps(files, groups[..j]).Ok?
    ensures ObjectSteps(files, groups) == Err(MissingCategory(groups[j]))
    decreases |groups|
  {
    if j < |groups| - 1 {
      var init := groups[..|groups| - 1];
      assert init[..j] == groups[..j];
      FirstMissingCategory(files, init, j);
    } else {
      assert groups[..|groups| - 1] == groups[..j];
    }
  }

  // ---------------------------------------------------------------------------
  // The program

  /** `VerilatorProgram`: a module to lint or simulate. */
  class VerilatorProgram {
    const path: string
    const moduleName: string
    const cppFile: string
    const sourceFile: Resolver.SourceFile
    const lintOnly: bool

    /** The names are those the constructor derives from the source file's path. */
    ghost predicate Valid() {
      && path == sourceFile.source.path
      && moduleName == ModuleName(path)
      && cppFile == CppFile(path)
    }

    constructor(sourceFile: Resolver.SourceFile, lintOnly: bool)
      ensures Valid() && this.sourceFile == sourceFile && this.lintOnly == lintOnly
    {
      path := sourceFile.source.path;
      moduleName := ModuleName(sourceFile.source.path);
      cppFile := CppFile(sourceFile.source.path);
      this.sourceFile := sourceFile;
      this.lintOnly := lintOnly;
    }

    /**
     * `write_ninja_build_verilate`: a module marked `no_lint` gets no step;
     * any other gets one, over the dependencies its source file cached.
     */
    method WriteVerilate(verilatorArgs: Option<seq<string>>) returns (r: Result<seq<Step>, EmitError>)
      requires Valid()
      modifies sourceFile
      ensures sourceFile.dependencies == old(sourceFile.dependencies)
      ensures r == VerilateSteps(sourceFile.source, moduleName, lintOnly, old(sourceFile.dependencies), verilatorArgs)
    {
      if sourceFile.source.noLint {
        return Ok([]);
      }
      var args := if verilatorArgs.None? then [] else verilatorArgs.value;
      LogPathShape(path);
      var logPath := WithSuffix(Parse("bin/lint/" + path), ".log").value;
      var deps := sourceFile.GetDependencies(None, map[]);
      if deps.Err? {
        return Err(Unresolved(deps.error));
      }
      var step := Step([Str(logPath)], if lintOnly then "verilator_lint" else "verilator_verilate",
                       deps.value, [], [("name", moduleName), ("args", Join(args, " "))]);
      return Ok([step]);
    }

    /** `write_ninja_build_verilate_compile`, given the lines of the generated makefile. */
    method WriteVerilateCompile(makefileLines: seq<string>) returns (r: Result<seq<Step>, EmitError>)
      ensures r == CompileSteps(makefileLines, moduleName, cppFile)
    {
      var parsed := ParseMakefile(makefileLines);
      if parsed.Err? {
        return Err(BadMakefile(parsed.error));
      }
      r := EmitCompile(parsed.value, moduleName, cppFile);
    }
  }

  /** The loop of the compile emitter over the categories, then the link step. */
  method EmitCompile(cppDependencies: Files, moduleName: string, cppFile: string)
    returns (r: Result<seq<Step>, EmitError>)
    ensures r == CompileStepsOf(cppDependencies, moduleName, cppFile)
  {
    var groups := FastGroups + SlowGroups;
    var steps: seq<Step> := [];
    var objectPaths: seq<string> := [];
    for g := 0 to |groups|
      invariant ObjectSteps(cppDependencies, groups[..g]) == Ok(steps)
      invariant objectPaths == Outputs(steps)
    {
      var group := groups[g];
      ObjectStepsPrefixStep(cppDependencies, groups, g);
      if group !in cppDependencies {
        ObjectStepsErrSticks(cppDependencies, groups, g + 1);
        return Err(MissingCategory(group));
      }
      var (isGlobal, sourcePaths) := cppDependencies[group];
      var more := CompileGroup(isGlobal, sourcePaths, group in FastGroups);
      if more.Err? {
        ObjectStepsErrSticks(cppDependencies, groups, g + 1);
        return Err(more.error);
      }
      OutputsAppend(steps, more.value.0);
      steps := steps + more.value.0;
      objectPaths := objectPaths + more.value.1;
    }
    assert groups[..|groups|] == groups;
    CompileStepsDone(cppDependencies, moduleName, cppFile, steps);
    var link := LinkStep(moduleName, cppFile, objectPaths);
    return Ok(steps + [link]);
  }

  /** One more category of the compile emitter's loop. */
  lemma ObjectStepsPrefixStep(files: Files, groups: seq<string>, g: nat)
    requires g < |groups|
    ensures ObjectSteps(files, groups[..g + 1]) == Extend(ObjectSteps(files, groups[..g]), GroupResult(files, groups[g]))
  {
    ObjectStepsSnoc(files, groups[..g], groups[g]);
    assert groups[..g + 1] == groups[..g] + [groups[g]];
  }

  /** Once a category has failed, the later ones leave the error as it is. */
  lemma ObjectStepsErrSticks(files: Files, groups: seq<string>, n: nat)
    requires n <= |groups| && ObjectSteps(files, groups[..n]).Err?
    ensures ObjectSteps(files, groups) == ObjectSteps(files, groups[..n])
  {
    GroupResultsPrefix(files, groups, n);
    ChainErrSticks(GroupResults(files, groups), n);
  }

  /** With every category compiled, the emitter appends the link step. */
  lemma CompileStepsDone(files: Files, moduleName: string, cppFile: string, steps: seq<Step>)
    requires ObjectSteps(files, FastGroups + SlowGroups) == Ok(steps)
    ensures CompileStepsOf(files, moduleName, cppFile) == Ok(steps + [LinkStep(moduleName, cppFile, Outputs(steps))])
  {
  }

  /** The inner loop of the compile emitter for one category: steps and object paths. */
  method CompileGroup(isGlobal: bool, sourcePaths: seq<string>, fast: bool)
    returns (r: Result<(seq<Step>, seq<string>), EmitError>)
    ensures GroupSteps(isGlobal, sourcePaths, fast).Err? ==> r == Err(GroupSteps(isGlobal, sourcePaths, fast).error)
    ensures GroupSteps(isGlobal, sourcePaths, fast).Ok? ==>
      r == Ok((GroupSteps(isGlobal, sourcePaths, fast).value, Outputs(GroupSteps(isGlobal, sourcePaths, fast).value)))
  {
    ghost var results := CompileResults(isGlobal, sourcePaths, fast);
    var steps: seq<Step> := [];
    var objectPaths: seq<string> := [];
    for k := 0 to |sourcePaths|
      invariant Sequence(results[..k]) == Ok(steps)
      invariant objectPaths == Outputs(steps)
    {
      var step := CompileFile(isGlobal, sourcePaths[k], fast);
      assert Sequence(results[..k + 1]) == Extend(Ok(steps), AsSteps(step)) by {
        CompileResultsAt(isGlobal, sourcePaths, fast, k);
        SequencePrefixStep(results, k);
      }
      if step.Err? {
        assert GroupSteps(isGlobal, sourcePaths, fast) == Err(step.error) by {
          SequenceErrSticks(results, k + 1);
        }
        return Err(step.error);
      }
      assert |step.value.outputs| == 1;
      OutputsSnoc(steps, step.value);
      steps := steps + [step.value];
      objectPaths := objectPaths + [step.value.outputs[0]];
    }
    assert GroupSteps(isGlobal, sourcePaths, fast) == Ok(steps) by {
      assert results[..|sourcePaths|] == results;
    }
    return Ok((steps, objectPaths));
  }

  /** One iteration of the inner loop: where the file is, where its object goes. */
  method CompileFile(isGlobal: bool, sourcePath: string, fast: bool) returns (r: Result<Step, EmitError>)
    ensures r == CompileStep(isGlobal, sourcePath, fast)
  {
    var source := Parse(sourcePath);
    var objectPath;
    if isGlobal {
      objectPath := Parse("bin/obj_dir/" + Stem(source) + ".o");
    } else {
      source := Slash(BinDir, source);
      var o := WithSuffix(source, ".o");
      if o.None? {
        return Err(BadSuffix(Str(Parse(sourcePath))));
      }
      objectPath := o.value;
    }
    return Ok(Step([Str(objectPath)], "verilator_compile", [Str(source)], [], [("args", if fast then "-O2" else "")]));
  }
}

/**
 * The RISC-V side of the build (`RiscvProgram`): the compile, link and
 * objcopy/objdump steps of a program, and the statistics read back after the
 * build (the `__stack` address from the symbol table, the address width it
 * needs and the size of the binary).
 */
module Riscv {
  import opened Wrappers
  import opened Seqs
  import opened Strings
  import opened Paths
  import opened Steps
  import MemImage
  import Arith

  datatype StatsError =
    | BadAddress(text: string)   // `int(text, 16)` raises `ValueError`
    | ZeroMemory                 // `math.log(0, 2)` raises `ValueError`

  // ---------------------------------------------------------------------------
  // Include arguments

  /** `-I` in front of every folder, in order. */
  function IncludeFlags(folders: seq<string>): (r: seq<string>)
    ensures |r| == |folders|
    ensures forall k :: 0 <= k < |folders| ==> r[k] == "-I" + folders[k]
  {
    if folders == [] then [] else IncludeFlags(folders[..|folders| - 1]) + ["-I" + folders[|folders| - 1]]
  }

  /** `_get_include_args`: no folders (`None`) gives no arguments. */
  function IncludeArgs(includeFolders: Option<seq<string>>): seq<string>
  {
    match includeFolders
    case None => []
    case Some(folders) => IncludeFlags(folders)
  }

  // ---------------------------------------------------------------------------
  // Build steps

  /** `bin/<name>/<file>` with the suffix `.o`; below `bin/` there is always a name to suffix. */
  function ObjectFile(name: string, buildFile: string): string
  {
    ObjectFileExists(name, buildFile);
    Str(WithSuffix(Parse("bin/" + name + "/" + buildFile), ".o").value)
  }

  lemma ObjectFileExists(name: string, buildFile: string)
    ensures WithSuffix(Parse("bin/" + name + "/" + buildFile), ".o").Some?
  {
    ParseBin(name);
    WithSuffixUnder("bin/" + name, buildFile, ".o");
  }

  /** Assembly sources (suffix `.s` or `.S`) are assembled, everything else compiled. */
  function SourceRule(buildFile: string): string
  {
    if Suffix(Parse(buildFile)) in [".s", ".S"] then "riscv_assemble" else "riscv_compile"
  }

  /** The variables of an object step: `opt` when it is set, then the include arguments. */
  function ObjectVariables(opt: Option<string>, includes: string): seq<(string, string)>
  {
    OptionalVariable("opt", opt) + [("includes", includes)]
  }

  /** The step that builds one object file from its build file. */
  function ObjectStep(name: string, buildFile: string, opt: Option<string>, includes: string): Step
  {
    Step([ObjectFile(name, buildFile)], SourceRule(buildFile), [buildFile], [], ObjectVariables(opt, includes))
  }

  /** The object steps of the build files, in order. */
  function ObjectSteps(name: string, files: seq<string>, opt: Option<string>, includes: string)
    : (r: seq<Step>)
    ensures |r| == |files|
  {
    if files == [] then []
    else ObjectSteps(name, files[..|files| - 1], opt, includes) + [ObjectStep(name, files[|files| - 1], opt, includes)]
  }

  /** The k-th object step is the step of the k-th build file. */
  lemma {:induction false} ObjectStepsEach(name: string, files: seq<string>, opt: Option<string>, includes: string)
    ensures var r := ObjectSteps(name, files, opt, includes);
      forall k :: 0 <= k < |files| ==> r[k] == ObjectStep(name, files[k], opt, includes)
  {
    if files != [] {
      var n := |files| - 1;
      ObjectStepsEach(name, files[..n], opt, includes);
      var r := ObjectSteps(name, files, opt, includes);
      forall k | 0 <= k < |files|
        ensures r[k] == ObjectStep(name, files[k], opt, includes)
      {
        if k < n {
          assert files[..n][k] == files[k];
        }
      }
    }
  }

  function LinkStep(name: string, objects: seq<string>, linkerScript: Option<string>, opt: Option<string>): Step
  {
    Step(["bin/" + name + ".o"], "riscv_link", objects, [Formatted(linkerScript)],
         [("linker", Formatted(linkerScript))] + OptionalVariable("opt", opt))
  }

  /** The three steps that turn the linked program into its binary, disassembly and symbol table. */
  function ToolSteps(name: string): seq<Step>
  {
    var linked := "bin/" + name + ".o";
    [ Step(["bin/" + name + ".bin"], "riscv_objcopy", [linked], [], []),
      Step(["bin/" + name + ".s"], "riscv_objdump", [linked], [], []),
      Step(["bin/" + name + ".symbols"], "riscv_objdump_symbols", [linked], [], []) ]
  }

  /** What `write_ninja_build` emits: the object steps, the link step and the three tool steps. */
  function BuildSteps(name: string, buildFiles: seq<string>, linkerScript: Option<string>,
                      includeFolders: Option<seq<string>>, opt: Option<string>): seq<Step>
  {
    var objects := ObjectSteps(name, buildFiles, opt, Join(IncludeArgs(includeFolders), " "));
    objects + [LinkStep(name, Outputs(objects), linkerScript, opt)] + ToolSteps(name)
  }

  /**
   * The shape of a program's build: one object step per build file, in order,
   * from that file to its object, assembled exactly for `.s`/`.S` sources and
   * carrying `opt` and the include arguments; the link step over all objects
   * in that order with the linker script as an implicit input and as the
   * `linker` variable; then objcopy, objdump and the symbol table, each from
   * the linked program to `bin/<name>.bin`, `.s` and `.symbols`.
   */
  lemma BuildShape(name: string, buildFiles: seq<string>, linkerScript: Option<string>,
                   includeFolders: Option<seq<string>>, opt: Option<string>)
    ensures var r := BuildSteps(name, buildFiles, linkerScript, includeFolders, opt);
      var n := |buildFiles|;
      && |r| == n + 4
      && (forall k :: 0 <= k < n ==>
            && r[k].inputs == [buildFiles[k]]
            && r[k].outputs == [ObjectFile(name, buildFiles[k])]
            && r[k].rule == (if Suffix(Parse(buildFiles[k])) in [".s", ".S"] then "riscv_assemble" else "riscv_compile")
            && r[k].implicit == []
            && r[k].variables == OptionalVariable("opt", opt) + [("includes", Join(IncludeArgs(includeFolders), " "))])
      && r[n].rule == "riscv_link"
      && r[n].outputs == ["bin/" + name + ".o"]
      && r[n].inputs == Outputs(r[..n])
      && r[n].implicit == [Formatted(linkerScript)]
      && r[n].variables == [("linker", Formatted(linkerScript))] + OptionalVariable("opt", opt)
      && (forall k :: n < k < n + 4 ==>
            && r[k].inputs == ["bin/" + name + ".o"] && r[k].implicit == [] && r[k].variables == [])
      && r[n + 1].rule == "riscv_objcopy" && r[n + 1].outputs == ["bin/" + name + ".bin"]
      && r[n + 2].rule == "riscv_objdump" && r[n + 2].outputs == ["bin/" + name + ".s"]
      && r[n + 3].rule == "riscv_objdump_symbols" && r[n + 3].outputs == ["bin/" + name + ".symbols"]
  {
    BuildObjects(name, buildFiles, linkerScript, includeFolders, opt);
    BuildLink(name, buildFiles, linkerScript, includeFolders, opt);
    BuildTools(name, buildFiles, linkerScript, includeFolders, opt);
  }

  /** The first steps of a build are the object steps of its build files. */
  lemma BuildObjects(name: string, buildFiles: seq<string>, linkerScript: Option<string>,
                     includeFolders: Option<seq<string>>, opt: Option<string>)
    ensures var r := BuildSteps(name, buildFiles, linkerScript, includeFolders, opt);
      forall k :: 0 <= k < |buildFiles| ==>
        && k < |r|
        && r[k].inputs == [buildFiles[k]]
        && r[k].outputs == [ObjectFile(name, buildFiles[k])]
        && r[k].rule == (if Suffix(Parse(buildFiles[k])) in [".s", ".S"] then "riscv_assemble" else "riscv_compile")
        && r[k].implicit == []
        && r[k].variables == OptionalVariable("opt", opt) + [("includes", Join(IncludeArgs(includeFolders), " "))]
  {
    var includes := Join(IncludeArgs(includeFolders), " ");
    var objects := ObjectSteps(name, buildFiles, opt, includes);
    ObjectStepsEach(name, buildFiles, opt, includes);
    Around(objects, LinkStep(name, Outputs(objects), linkerScript, opt), ToolSteps(name));
  }

  /** After the object steps come the link step over their outputs and the three tool steps. */
  lemma BuildLink(name: string, buildFiles: seq<string>, linkerScript: Option<string>,
                  includeFolders: Option<seq<string>>, opt: Option<string>)
    ensures var r := BuildSteps(name, buildFiles, linkerScript, includeFolders, opt);
      var n := |buildFiles|;
      && |r| == n + 4
      && r[n].rule == "riscv_link"
      && r[n].outputs == ["bin/" + name + ".o"]
      && r[n].inputs == Outputs(r[..n])
      && r[n].implicit == [Formatted(linkerScript)]
      && r[n].variables == [("linker", Formatted(linkerScript))] + OptionalVariable("opt", opt)
  {
    var objects := ObjectSteps(name, buildFiles, opt, Join(IncludeArgs(includeFolders), " "));
    Around(objects, LinkStep(name, Outputs(objects), linkerScript, opt), ToolSteps(name));
  }

  /**
   * The last three steps read the linked program and write its binary, its
   * disassembly and its symbol table.
   */
  lemma BuildTools(name: string, buildFiles: seq<string>, linkerScript: Option<string>,
                   includeFolders: Option<seq<string>>, opt: Option<string>)
    ensures var r := BuildSteps(name, buildFiles, linkerScript, includeFolders, opt);
      var n := |buildFiles|;
      && |r| == n + 4
      && (forall k :: n < k < n + 4 ==>
            && r[k].inputs == ["bin/" + name + ".o"] && r[k].implicit == [] && r[k].variables == [])
      && r[n + 1].rule == "riscv_objcopy" && r[n + 1].outputs == ["bin/" + name + ".bin"]
      && r[n + 2].rule == "riscv_objdump" && r[n + 2].outputs == ["bin/" + name + ".s"]
      && r[n + 3].rule == "riscv_objdump_symbols" && r[n + 3].outputs == ["bin/" + name + ".symbols"]
  {
    var objects := ObjectSteps(name, buildFiles, opt, Join(IncludeArgs(includeFolders), " "));
    ToolStepsAfter(name, objects, LinkStep(name, Outputs(objects), linkerScript, opt));
  }

  /** Whatever comes before them, the tool steps are the last three, in order. */
  lemma ToolStepsAfter(name: string, before: seq<Step>, link: Step)
    ensures var r := before + [link] + ToolSteps(name);
      var n := |before|;
      && |r| == n + 4
      && (forall k :: n < k < n + 4 ==>
            && r[k].inputs == ["bin/" + name + ".o"] && r[k].implicit == [] && r[k].variables == [])
      && r[n + 1].rule == "riscv_objcopy" && r[n + 1].outputs == ["bin/" + name + ".bin"]
      && r[n + 2].rule == "riscv_objdump" && r[n + 2].outputs == ["bin/" + name + ".s"]
      && r[n + 3].rule == "riscv_objdump_symbols" && r[n + 3].outputs == ["bin/" + name + ".symbols"]
  {
    Around(before, link, ToolSteps(name));
  }

  /**
   * An object sits below `bin/<name>/` in the build file's own directory
   * (both in pathlib's normal form), keeps the build file's stem and takes
   * the suffix `.o`. A build file without parts puts `.o` on the last part
   * of `bin/<name>` instead.
   */
  lemma ObjectFileShape(name: string, buildFile: string)
    ensures var d := ["bin"] + Parse(name).parts;
      var q := Parse(buildFile).parts;
      var obj := Parse(ObjectFile(name, buildFile));
      && (q != [] ==> obj == PurePath([], d + q[..|q| - 1] + [Stem(Parse(buildFile)) + ".o"]))
      && (q != [] ==> Suffix(obj) == ".o" && Stem(obj) == Stem(Parse(buildFile)))
      && (q == [] ==> obj == PurePath([], d[..|d| - 1] + [Stem(Parse("bin/" + name)) + ".o"]))
  {
    ParseBin(name);
    SuffixedUnder("bin/" + name, buildFile, ".o");
  }


  // ---------------------------------------------------------------------------
  // Program statistics

  /** The digits `int(text, 16)` accepts, in either case. */
  predicate IsHexChar(c: char) {
    '0' <= c <= '9' || 'a' <= c <= 'f' || 'A' <= c <= 'F'
  }

  function HexCharValue(c: char): (v: nat)
    requires IsHexChar(c)
    ensures v < 16
  {
    if '0' <= c <= '9' then c as int - '0' as int
    else if 'a' <= c <= 'f' then c as int - 'a' as int + 10
    else c as int - 'A' as int + 10
  }

  /** The value of a run of hex digits, most significant first. */
  function DigitsValue(digits: string): nat
    requires forall k :: 0 <= k < |digits| ==> IsHexChar(digits[k])
  {
    if digits == [] then 0
    else DigitsValue(digits[..|digits| - 1]) * 16 + HexCharValue(digits[|digits| - 1])
  }

  /**
   * `int(text, 16)`: surrounding whitespace is ignored, and what is left must
   * be a non-empty run of hex digits; anything else is a `ValueError` (`None`).
   */
  function ParseHex(text: string): Option<nat>
  {
    HexValue(Strip(text))
  }

  /** The value of text already free of surrounding whitespace, if it is all hex digits. */
  function HexValue(t: string): Option<nat>
  {
    if t != [] && forall k :: 0 <= k < |t| ==> IsHexChar(t[k]) then Some(DigitsValue(t)) else None
  }

  /** How `llvm-objdump` writes an address: lower-case hex digits, most significant first. */
  function HexText(v: nat): (r: string)
    ensures r != [] && forall k :: 0 <= k < |r| ==> IsHexChar(r[k])
    ensures !IsSpace(r[0]) && !IsSpace(r[|r| - 1])
    ensures DigitsValue(r) == v
  {
    var d := MemImage.HexDigit(v % 16);
    if v < 16 then [d]
    else
      var r := HexText(v / 16) + [d];
      assert r[..|r| - 1] == HexText(v / 16);
      r
  }

  /** An address written in hex reads back as itself, with or without zero padding. */
  lemma ParseHexOfText(v: nat, zeros: nat)
    ensures ParseHex(Zeros(zeros) + HexText(v)) == Some(v)
  {
    var t := Zeros(zeros) + HexText(v);
    assert t[0] == '0' || t[0] == HexText(v)[0];
    assert t[|t| - 1] == HexText(v)[|HexText(v)| - 1];
    StripOfStripped(t);
    LeadingZeros(zeros, HexText(v));
  }

  function Zeros(n: nat): (r: string)
    ensures |r| == n && forall k :: 0 <= k < n ==> r[k] == '0'
  {
    if n == 0 then [] else Zeros(n - 1) + ['0']
  }

  /** Leading zeros add nothing to the value. */
  lemma {:induction false} LeadingZeros(n: nat, digits: string)
    requires forall k :: 0 <= k < |digits| ==> IsHexChar(digits[k])
    ensures forall k :: 0 <= k < |Zeros(n) + digits| ==> IsHexChar((Zeros(n) + digits)[k])
    ensures DigitsValue(Zeros(n) + digits) == DigitsValue(digits)
    decreases |digits|
  {
    var t := Zeros(n) + digits;
    if digits == [] {
      assert t == Zeros(n);
      ZerosValue(n);
    } else {
      var init := digits[..|digits| - 1];
      LeadingZeros(n, init);
      assert t[..|t| - 1] == Zeros(n) + init;
    }
  }

  lemma {:induction false} ZerosValue(n: nat)
    ensures DigitsValue(Zeros(n)) == 0
  {
    if n > 0 {
      ZerosValue(n - 1);
    }
  }

  /** Surrounding whitespace does not change what `int(text, 16)` reads. */
  lemma ParseHexIgnoresSpace(text: string)
    ensures ParseHex(Strip(text)) == ParseHex(text)
  {
    StripIdempotent(text);
  }

  /** The address field of a symbol line: the text before its first space. */
  function AddressField(line: string): string
  {
    Split(line, " ")[0]
  }

  /** What the scan of the symbol table has set so far, and the error that stopped it. */
  datatype Scan = Scan(memorySize: Option<nat>, addressWidth: Option<nat>, failure: Option<StatsError>)

  /**
   * One symbol line: a line mentioning `__stack` sets the memory size to its
   * address and the address width to what that size needs. The memory size is
   * assigned before the width is computed, so a zero address leaves it set.
   */
  function ScanLine(s: Scan, line: string): Scan
  {
    if s.failure.Some? || !Contains(line, "__stack") then s
    else
      match ParseHex(AddressField(line))
      case None => s.(failure := Some(BadAddress(AddressField(line))))
      case Some(v) =>
        if v == 0 then Scan(Some(0), s.addressWidth, Some(ZeroMemory))
        else Scan(Some(v), Some(MemImage.AddressWidth(v)), None)
  }

  /** The symbol lines in order, from the fields as they were. */
  function ScanSymbols(start: Scan, lines: seq<string>): Scan
  {
    if lines == [] then start else ScanLine(ScanSymbols(start, lines[..|lines| - 1]), lines[|lines| - 1])
  }

  /** With no line mentioning `__stack`, both fields stay as they were and nothing is raised. */
  lemma {:induction false} NoStackLine(start: Scan, lines: seq<string>)
    requires start.failure.None?
    requires forall k :: 0 <= k < |lines| ==> !Contains(lines[k], "__stack")
    ensures ScanSymbols(start, lines) == start
  {
    if lines != [] {
      NoStackLine(start, lines[..|lines| - 1]);
    }
  }

  /** A failure stops the scan: later lines change nothing. */
  lemma {:induction false} FailureSticks(s: Scan, lines: seq<string>)
    requires s.failure.Some?
    ensures ScanSymbols(s, lines) == s
  {
    if lines != [] {
      FailureSticks(s, lines[..|lines| - 1]);
    }
  }

  /** Scanning two runs of lines is scanning the first, then the second from where it stopped. */
  lemma {:induction false} ScanAppend(start: Scan, a: seq<string>, b: seq<string>)
    ensures ScanSymbols(start, a + b) == ScanSymbols(ScanSymbols(start, a), b)
    decreases |b|
  {
    if b == [] {
      assert a + b == a;
    } else {
      var b' := b[..|b| - 1];
      assert (a + b)[..|a + b| - 1] == a + b';
      ScanAppend(start, a, b');
    }
  }

  /**
   * When every scan succeeds, the memory size is the address of the last line
   * mentioning `__stack` and the width is the one that address needs.
   */
  lemma LastStackLineWins(start: Scan, lines: seq<string>, j: nat)
    requires j < |lines| && Contains(lines[j], "__stack")
    requires forall k :: j < k < |lines| ==> !Contains(lines[k], "__stack")
    requires ScanSymbols(start, lines).failure.None?
    ensures ParseHex(AddressField(lines[j])).Some? && ParseHex(AddressField(lines[j])).value > 0
    ensures var v := ParseHex(AddressField(lines[j])).value;
      ScanSymbols(start, lines) == Scan(Some(v), Some(MemImage.AddressWidth(v)), None)
  {
    var b := lines[j + 1..];
    var mid := ScanLine(ScanSymbols(start, lines[..j]), lines[j]);
    ScanAt(start, lines, j);
    if mid.failure.Some? {
      FailureSticks(mid, b);
    } else {
      assert forall k :: 0 <= k < |b| ==> b[k] == lines[j + 1 + k];
      NoStackLine(mid, b);
    }
  }

  /** The scan reaches line `j` from the lines before it and goes on from there. */
  lemma ScanAt(start: Scan, lines: seq<string>, j: nat)
    requires j < |lines|
    ensures ScanSymbols(start, lines)
      == ScanSymbols(ScanLine(ScanSymbols(start, lines[..j]), lines[j]), lines[j + 1..])
  {
    var a := lines[..j + 1];
    SplitAt(lines, j + 1);
    ScanAppend(start, a, lines[j + 1..]);
    assert a[..j] == lines[..j];
  }

  // ---------------------------------------------------------------------------
  // The program

  /** `RiscvProgram`: a program to compile, link and measure. */
  class RiscvProgram {
    const name: string
    const buildFiles: seq<string>
    const linkerScript: Option<string>
    const includeFolders: Option<seq<string>>
    const opt: Option<string>
    var programSize: Option<nat>
    var memorySize: Option<nat>
    var addressWidth: Option<nat>

    constructor(name: string, buildFiles: seq<string>, linkerScript: Option<string>,
                includeFolders: Option<seq<string>>, opt: Option<string>)
      ensures this.name == name && this.buildFiles == buildFiles && this.linkerScript == linkerScript
      ensures this.includeFolders == includeFolders && this.opt == opt
      ensures programSize.None? && memorySize.None? && addressWidth.None?
    {
      this.name := name;
      this.buildFiles := buildFiles;
      this.linkerScript := linkerScript;
      this.includeFolders := includeFolders;
      this.opt := opt;
      programSize := None;
      memorySize := None;
      addressWidth := None;
    }

    /** `_get_include_args`. */
    method GetIncludeArgs() returns (args: seq<string>)
      ensures args == IncludeArgs(includeFolders)
    {
      args := [];
      if includeFolders.Some? {
        var folders := includeFolders.value;
        for i := 0 to |folders|
          invariant args == IncludeFlags(folders[..i])
        {
          assert folders[..i + 1][..i] == folders[..i];
          args := args + ["-I" + folders[i]];
        }
        assert folders[..|folders|] == folders;
      }
    }

    /**
     * `get_program_stats`, given the lines of `bin/<name>.symbols` and the
     * bytes of `bin/<name>.bin`: the symbol scan, then the memory image of
     * the binary (returned), whose byte count becomes the program size. An
     * error leaves the fields as far as the scan had set them.
     */
    method GetProgramStats(symbolLines: seq<string>, binary: seq<Arith.byte>)
      returns (r: Result<seq<string>, StatsError>)
      modifies this
      ensures var s := ScanSymbols(Scan(old(memorySize), old(addressWidth), None), symbolLines);
        && memorySize == s.memorySize && addressWidth == s.addressWidth
        && (s.failure.Some? ==> r == Err(s.failure.value) && programSize == old(programSize))
        && (s.failure.None? ==> r == Ok(MemImage.HexLines(binary)) && programSize == Some(|binary|))
    {
      ghost var start := Scan(memorySize, addressWidth, None);
      for i := 0 to |symbolLines|
        invariant ScanSymbols(start, symbolLines[..i]) == Scan(memorySize, addressWidth, None)
        invariant programSize == old(programSize)
      {
        assert symbolLines[..i + 1][..i] == symbolLines[..i];
        var line := symbolLines[i];
        if Contains(line, "__stack") {
          var v := ParseHex(AddressField(line));
          if v.None? {
            FailureSticks(ScanSymbols(start, symbolLines[..i + 1]), symbolLines[i + 1..]);
            assert symbolLines == symbolLines[..i + 1] + symbolLines[i + 1..];
            ScanAppend(start, symbolLines[..i + 1], symbolLines[i + 1..]);
            return Err(BadAddress(AddressField(line)));
          }
          memorySize := Some(v.value);
          if v.value == 0 {
            FailureSticks(ScanSymbols(start, symbolLines[..i + 1]), symbolLines[i + 1..]);
            assert symbolLines == symbolLines[..i + 1] + symbolLines[i + 1..];
            ScanAppend(start, symbolLines[..i + 1], symbolLines[i + 1..]);
            return Err(ZeroMemory);
          }
          addressWidth := Some(MemImage.AddressWidth(v.value));
        }
      }
      assert symbolLines[..|symbolLines|] == symbolLines;
      var lines, count := MemImage.ConvertHex(binary);
      programSize := Some(count);
      return Ok(lines);
    }

    /** `write_ninja_build`. */
    method WriteNinjaBuild() returns (steps: seq<Step>)
      ensures steps == BuildSteps(name, buildFiles, linkerScript, includeFolders, opt)
    {
      var includeArgs := GetIncludeArgs();
      var includes := Join(includeArgs, " ");
      steps := [];
      var objectFiles: seq<string> := [];
      for i := 0 to |buildFiles|
        invariant ObjectSteps(name, buildFiles[..i], opt, includes) == steps
        invariant objectFiles == Outputs(steps)
      {
        assert buildFiles[..i + 1][..i] == buildFiles[..i];
        var step := BuildObject(name, buildFiles[i], opt, includes);
        OutputsAppend(steps, [step]);
        steps := steps + [step];
        objectFiles := objectFiles + [step.outputs[0]];
      }
      assert buildFiles[..|buildFiles|] == buildFiles;
      ghost var objects := steps;
      var linked := "bin/" + name + ".o";
      var link := Step([linked], "riscv_link", objectFiles, [Formatted(linkerScript)],
                       [("linker", Formatted(linkerScript))] + OptionalVariable("opt", opt));
      assert link == LinkStep(name, Outputs(objects), linkerScript, opt);
      steps := steps + [link];
      var tools := [Step(["bin/" + name + ".bin"], "riscv_objcopy", [linked], [], []),
                    Step(["bin/" + name + ".s"], "riscv_objdump", [linked], [], []),
                    Step(["bin/" + name + ".symbols"], "riscv_objdump_symbols", [linked], [], [])];
      assert tools == ToolSteps(name);
      steps := steps + tools;
    }
  }

  /** One iteration of the loop in `write_ninja_build`: the object step of a build file. */
  method BuildObject(name: string, buildFile: string, opt: Option<string>, includes: string)
    returns (step: Step)
    ensures step == ObjectStep(name, buildFile, opt, includes)
  {
    ObjectFileExists(name, buildFile);
    var objectFile := WithSuffix(Parse("bin/" + name + "/" + buildFile), ".o").value;
    var rule := if Suffix(Parse(buildFile)) in [".s", ".S"] then "riscv_assemble" else "riscv_compile";
    step := Step([Str(objectFile)], rule, [buildFile], [], OptionalVariable("opt", opt) + [("includes", includes)]);
  }
}

# reptilia build core, modelled in Dafny

reptilia builds a small RISC-V system. A Python script prepares SystemVerilog
RTL for Verilator. It also compiles test programs into memory images that the
simulated core loads with `$readmemh`. The test programs run on a tiny C runtime.
This project models the deterministic core of that tool and of its runtime,
and proves what each part promises:

- **RTL dependency engine** (`build.py`), in modules `Directives`,
  `Registry` and `Resolver`:
  - the leading `//!import`, `//!include`, `//!wrapper` and `//!no_lint` block of each file;
  - the path-keyed registry merged folder by folder, and its reference check;
  - the memoised resolver that orders a module's transitive imports for a single-pass tool.
- **Build-step emitters** (`verilator.py`, `riscv.py`), in modules `Verilator`,
  `Makefile`, `Riscv` and `Steps`:
  - steps are records: outputs, rule, inputs, implicit inputs, variables;
  - the Verilator class manifest is parsed from its lines;
  - the `__stack` address is read from the symbol table.
- **Memory images** (`util.py`, `tests/scripts/hex_converter.py`,
  `tests/hex_converter.py`), in module `MemImage`:
  - bytes are packed into 32-bit words, last byte first, one hex line per word;
  - the address width is the least `w` with `2^w >= size`.
- **Embedded runtime** (`tests/libio.c`, `tests/lib/libmem.c`,
  `tests/libmem.c`), in modules `LibIo` and `LibMem`:
  - `tiny_printf`, `xtoa` and `puth` write to a `Console` whose `out` field is what `_putchar` has written;
  - `memcpy`, `memmove`, `memset` and `memcmp` work in place on one byte array that stands for memory.
- **Integer bit helpers** (`tests/old_fp_test.c`), in module `FpBits`: the
  digit-by-digit square root, `create_mask`, and the packing and unpacking
  of single-precision fields.

The supporting modules do the following:

- `Strings` and `Paths` model the Python `str` and `pathlib` operations the scripts call.
- `Wrappers` holds `Option` and `Result`.
- `Arith` holds powers and division facts.
- `Seqs` holds sequence lemmas.

Python exceptions become `Err` values:

- `RuntimeError`, `KeyError` and `IndexError`;
- the `ValueError` of `int(..., 16)`;
- the `ValueError` of `with_suffix` on `bin / path` when the path is only a root (verilator.py:169-170). The other `with_suffix` calls always have a name to suffix, and the model proves they succeed.

## Model

| member | source | states |
|---|---|---|
| Directives.GetIncludesImports | build.py:19-39 | the scan of the lines returns the imports, includes, wrapper and `no_lint` flag of the leading directive block, as `Parse` defines them |
| Directives.BlockEnd | build.py:26-38 | the block is the longest prefix of directive lines: every line before the end is a directive, the line at the end is not |
| Directives.StopsAtFirstNonDirective | build.py:37-38 | after the first line that is not a directive, no later line, directive or not, changes the result |
| Directives.BlankLineEndsBlock | build.py:26-38 | a blank line still holds its `"\n"`, so it is not `""` and ends the block |
| Directives.ImportsInOrder | build.py:27-28 | imports are collected in declaration order: the imports of `a + b` are those of `a`, then those of `b` |
| Directives.IncludesInOrder | build.py:29-30 | includes are collected in declaration order likewise |
| Directives.ImportLineContributes | build.py:27-28 | an import line contributes exactly `"rtl/"` plus its stripped argument, and nothing else |
| Directives.WrapperIsLast | build.py:31-32 | the wrapper is the one of the last `//!wrapper` line, whatever came before |
| Directives.NoWrapperLine | build.py:24-32 | without a `//!wrapper` line there is no wrapper |
| Directives.NoLintIff | build.py:25-34 | `no_lint` holds exactly when some line of the block is a `//!no_lint` line |
| Directives.HeaderIncludes | build.py:42-47 | a header keeps the includes of its block and ignores the rest |
| Registry.NewHeader | build.py:45-47 | a header records its path and the includes of its directive block |
| Registry.NewSource | build.py:53-58 | a source records its path, includes, imports, wrapper and `no_lint` flag from its directive block |
| Registry.Update | build.py:186-187 | `{**d, **other}` holds the keys of both; keys of `other` take its values; the keys of `d` keep their order at the front, followed by exactly the keys of `other` that `d` lacks, in their order in `other` |
| Registry.UpdateWellFormed | build.py:186-187 | the merge keeps the key list duplicate-free and in step with the entries |
| Registry.MergeFolders | build.py:183-187 | the merge loop computes the folder-by-folder merge |
| Registry.MergedWellFormed | build.py:185-187 | merging well-formed folders gives a well-formed registry |
| Registry.MergedKeys | build.py:185-187 | the merged registry holds exactly the paths found in some folder |
| Registry.MergedLaterWins | build.py:185-187 | a path found in several folders takes the entry from the last of them |
| Registry.FirstMissing | build.py:191-202 | `None` exactly when every reference is known; otherwise a reference of the list that is unknown |
| Registry.FirstMissingAt | build.py:191-202 | the reported reference is the first unknown one |
| Registry.Violation | build.py:190-202 | a source is faulty exactly when an include is not a header key or an import is not a source key; includes are reported before imports |
| Registry.Validate | build.py:189-202 | the check succeeds exactly when every source's includes are headers and its imports sources; an error names a source in registry order and a broken reference of it; headers' own includes are not checked |
| Registry.ProgramOnlyWhenVerilated | build.py:207-211 | a path that is only linted gets no program; a top-level path gets one whenever a program was compiled, and it is one of the compiled programs |
| Resolver.VisitCorrect | build.py:60-91 | on an acyclic, fully registered graph, resolving a waiting module succeeds; it emits each newly reached module once, each after its imports, the module itself last, and moves exactly those from waiting to placed |
| Resolver.FirstPassCorrect | build.py:67-75 | the first loop succeeds and leaves every import placed; what it emits is new, duplicate-free, ordered after its own imports and ranked below the module |
| Resolver.ResolvedOrder | build.py:60-103 | the dependency list is duplicate-free and ordered so that every import precedes its importer; the module is the last entry before the optional wrapper |
| Resolver.ResolvedIsLeast | build.py:60-91 | nothing outside any import-closed set holding the module is emitted, so the list is exactly the transitive imports and the module |
| Resolver.VisitWithin | build.py:60-91 | resolution emits nothing outside an import-closed set that holds the module |
| Resolver.FirstPassFails | build.py:67-75 | an unregistered import makes the first loop fail with "not found", for a path that is neither waiting nor placed |
| Resolver.UnregisteredImportFails | build.py:72-75 | resolving a module with an unregistered import raises "not found" for a path that is not registered |
| Resolver.DependenciesFail | build.py:60-103 | on an acyclic graph, resolution fails only with "not found" for an unregistered path; the circular-dependency error never fires |
| Resolver.VisitOutcome | build.py:60-91 | resolving a waiting module only moves paths from waiting to placed, only paths ranked at most the module's, and fails only with "not found" for a path neither waiting nor placed |
| Resolver.FirstPassOutcome | build.py:67-75 | the first loop only places imports ranked below the module, and fails only with "not found" for an unknown path |
| Resolver.FirstPassErrSticks | build.py:67-75 | once the first loop raises, later imports do not change the error |
| Resolver.SecondPassIdle | build.py:77-81 | the second loop adds nothing when every import is already placed |
| Resolver.Resolution.constructor | build.py:100 | resolution starts from a copy of the registry as the waiting map and nothing placed |
| Resolver.Resolution.Resolve | build.py:60-91 | the recursion on the mutable waiting and placed maps returns, and leaves, exactly what `Visit` computes |
| Resolver.Resolution.ResolveImports | build.py:66-75 | the first loop on mutable state computes `FirstPass` |
| Resolver.Resolution.PlaceImports | build.py:76-81 | the second loop on mutable state computes `SecondPass` |
| Resolver.SourceFile.constructor | build.py:53-58 | a new source file has no cached dependencies |
| Resolver.SourceFile.GetDependencies | build.py:93-103 | the first call resolves and caches the list with the wrapper last; later calls return the cache unchanged; with no cache and no registry it is an error |
| Resolver.ResolveKeys | build.py:203-204 | resolving every source in order gives a list for each registered path |
| Resolver.ResolveAll | build.py:203-204 | the resolution pass over the registry computes `ResolveKeys` |
| Resolver.AllResolved | build.py:203-204 | on an acyclic, fully registered graph every source resolves, each to its own dependency list |
| Verilator.ModuleNameOf | verilator.py:88 | the module name of `dir/m.sv` is `m` |
| Verilator.CppFileOf | verilator.py:89-91 | the testbench of `x/rtl/y.sv` is `tb_cpp/y_tb.cpp` |
| Verilator.VerilatorProgram.constructor | verilator.py:86-93 | the program keeps its source file and lint flag, and derives its module name and testbench path |
| Verilator.VerilateSteps | verilator.py:129-146 | a `no_lint` source gives no step; any other gives one step to the log path, exactly when the dependencies are cached, else the "no source files" error; the rule is the lint rule exactly when linting only; the inputs are the resolved dependencies, with no implicit inputs; the variables are the module name and the space-joined arguments |
| Verilator.LogPathShape | verilator.py:140 | the log lies in `bin/lint/` plus the directory parts of the module's path, is named after the path's stem with `.log`, and `with_suffix` never raises there |
| Verilator.VerilatorProgram.WriteVerilate | verilator.py:129-146 | emits `VerilateSteps` with the cached dependencies and leaves the cache alone |
| Verilator.GlobalObject | verilator.py:165-167 | a global file `verilator/include/v.cpp` compiles to `bin/obj_dir/v.o` |
| Verilator.ClassObject | verilator.py:168-170 | a generated file `obj_dir/v.cpp` compiles from `bin/obj_dir/v.cpp` to `bin/obj_dir/v.o` |
| Verilator.ObjectOf | verilator.py:165-170 | a listed file has a source and object path unless it is not global and is only a root, where `with_suffix` raises |
| Verilator.ClassSource | verilator.py:169 | `bin / "obj_dir/v.cpp"` is `bin/obj_dir/v.cpp` |
| Verilator.ClassObjectPath | verilator.py:170 | `with_suffix(".o")` on `bin/obj_dir/v.cpp` is `bin/obj_dir/v.o` |
| Verilator.CompileStep | verilator.py:163-180 | a listed file's step exists exactly when `ObjectOf` gives its paths; it compiles that source path to that object path with the compile rule and no implicit inputs, `-O2` exactly for fast categories |
| Verilator.CompileFile | verilator.py:164-180 | one pass of the inner loop emits `CompileStep` |
| Verilator.GroupStepsEach | verilator.py:163-180 | a category's steps exist exactly when every file's step does, and then the k-th step is the compile step of the k-th file |
| Verilator.CompileGroup | verilator.py:163-180 | the inner loop emits the category's steps and collects their object paths in order |
| Verilator.GroupResult | verilator.py:162 | a category absent from the manifest is a `KeyError`; a present one gives one step per listed file |
| Verilator.ObjectSteps | verilator.py:161-180 | the steps of the categories, as many as they list files |
| Verilator.ObjectStepsGroup | verilator.py:161-180 | when the steps exist, every category is in the manifest and its steps sit right after those of the categories before it |
| Verilator.ObjectStepsEach | verilator.py:161-180 | the i-th file of the j-th category has its compile step at the number of files of the earlier categories plus i |
| Verilator.ObjectStepsAppend | verilator.py:161 | the steps of two runs of categories are the first run's, then the second's |
| Verilator.FastThenSlow | verilator.py:157-187 | the fast categories' files come first, each with `-O2`, then the slow ones with no arguments; the link step is last |
| Verilator.FirstMissingCategory | verilator.py:161-162 | the first category missing from the manifest stops the emitter with its name |
| Verilator.CompileStepsOf | verilator.py:160-187 | the steps exist exactly when the category steps do; the last is the link step with the link rule, `-O2` and no implicit inputs, to `bin/<module>_simulator`, from every object path in emission order, then the testbench |
| Verilator.CompileSteps | verilator.py:150-189 | a manifest that cannot be parsed is an error; otherwise the steps are those of its categories |
| Verilator.EmitCompile | verilator.py:160-187 | the category loop and the link step compute `CompileStepsOf` |
| Verilator.VerilatorProgram.WriteVerilateCompile | verilator.py:150-189 | parses the manifest lines and emits `CompileSteps` |
| Makefile.CppPaths | verilator.py:13-21 | one path per non-empty token; empty tokens are dropped |
| Makefile.CppPathsEach | verilator.py:13-21 | the path of a non-empty token sits at the number of non-empty tokens before it, and is the prefix, the stripped token and `.cpp` |
| Makefile.SplitVariable | verilator.py:10-22 | a line without `+=` is an `IndexError`; otherwise the list has one file per non-empty token |
| Makefile.SplitMakefileVariable | verilator.py:10-22 | the loop computes `SplitVariable` |
| Makefile.SplitVariableOfWords | verilator.py:12-21 | `name += w1 w2 ...` lists `obj_dir/wi.cpp`, or `verilator/include/wi.cpp` for global files, in order |
| Makefile.SplitJoin | verilator.py:13 | splitting at one character undoes joining with it |
| Makefile.JoinLine | verilator.py:100-108 | after one physical line, a pending continuation has a line to join to, and that line holds no backslash |
| Makefile.LogicalLinesClean | verilator.py:99-108 | every logical line is stripped and none ends in a backslash |
| Makefile.LogicalPlain | verilator.py:99-108 | without comments or backslashes, the logical lines are the stripped physical lines |
| Makefile.ContinuationStarts | verilator.py:105-108 | a line ending in a backslash leaves its text before the backslash pending |
| Makefile.ContinuationEnds | verilator.py:103-104 | the next line is joined to the pending text with one space |
| Makefile.ContinuationJoined | verilator.py:103-108 | a continued line and its successor make a single logical line |
| Makefile.JoinContinuations | verilator.py:96-108 | the first loop, with its `pop` and `append`, computes the logical lines |
| Makefile.ParseMakefile | verilator.py:95-127 | the whole parse records the categories of the logical lines |
| Makefile.RecordGroup | verilator.py:118-126 | one category loop records every category the line starts with |
| Makefile.RecordCategories | verilator.py:111-126 | a line is tried against the four class and support categories, then the two global ones |
| Makefile.RecordLineEntry | verilator.py:118-126 | a line starting with a category sets it to its split, flagged global exactly for the global categories; other categories keep their entries |
| Makefile.LastLineWins | verilator.py:110-126 | a category's entry comes from the last line starting with it |
| Makefile.AbsentCategory | verilator.py:110-126 | a category no line starts with has no entry |
| Makefile.CategorizeErr | verilator.py:110-126 | parsing fails exactly when some category line has no `+=` |
| Riscv.RiscvProgram.constructor | riscv.py:67-77 | the program keeps its arguments; program size, memory size and address width start unset |
| Riscv.IncludeFlags | riscv.py:82-83 | `-I` then the folder, one per folder, in order |
| Riscv.RiscvProgram.GetIncludeArgs | riscv.py:79-84 | the append loop gives the include arguments; there are none when the folders are `None` |
| Riscv.BuildObject | riscv.py:119-132 | one pass of the object loop emits `ObjectStep` |
| Riscv.ObjectSteps | riscv.py:118-132 | one object step per build file |
| Riscv.ObjectStepsEach | riscv.py:119-132 | the k-th object step is the one the k-th build file makes |
| Riscv.ObjectFileShape | riscv.py:120 | `with_suffix` never raises here; an object keeps its build file's stem, takes `.o` and sits in `bin/<name>/` followed by the build file's directory, in pathlib's normal form; a build file without parts gives `bin/<name>.o` |
| Riscv.BuildShape | riscv.py:113-155 | the build has one object step per file in order, from that file to its object, with `riscv_assemble` for `.s`/`.S` and `riscv_compile` otherwise, `opt` and the include arguments, and no implicit inputs; then `riscv_link` to `bin/<name>.o` over all objects in order, with the linker script as implicit input and as the `linker` variable, then `opt` when set; then `riscv_objcopy`, `riscv_objdump` and `riscv_objdump_symbols` from `bin/<name>.o` to `bin/<name>.bin`, `.s` and `.symbols`, without variables or implicit inputs; `len(build_files) + 4` steps in all |
| Riscv.RiscvProgram.WriteNinjaBuild | riscv.py:113-157 | the object loop and the four later steps compute `BuildSteps` |
| Riscv.HexText | riscv.py:98 | an address as hex digits with no surrounding space that read back as its value |
| Riscv.ParseHexOfText | riscv.py:98 | `int(text, 16)` reads back a hex address, with or without leading zeros |
| Riscv.LeadingZeros | riscv.py:98 | leading zeros add nothing to the value |
| Riscv.ParseHexIgnoresSpace | riscv.py:98 | surrounding whitespace does not change what `int(text, 16)` reads |
| Riscv.NoStackLine | riscv.py:96-99 | with no `__stack` line, memory size and address width stay as they were and nothing is raised |
| Riscv.FailureSticks | riscv.py:96-99 | after a raise the remaining lines change nothing |
| Riscv.ScanAppend | riscv.py:96-99 | scanning two runs of lines is scanning the first, then the second from where it stopped |
| Riscv.LastStackLineWins | riscv.py:96-99 | the memory size is the address of the last `__stack` line, and the width is the one that size needs |
| Riscv.RiscvProgram.GetProgramStats | riscv.py:94-103 | the fields end as the symbol scan leaves them; on success the memory image is `util.py`'s and the program size is the byte count |
| MemImage.Hex2 | util.py:34 | `"%02x"` gives two lower-case digits that read back as the byte |
| MemImage.PackedRoundTrip | util.py:33-34 | a packed word reads back, pair by pair from the end, as its group of bytes |
| MemImage.PackedReversed | util.py:34 | digit pair `j` of a word is byte `len - 1 - j` of its group |
| MemImage.PackedDigits | util.py:34 | every character of a word is a lower-case hex digit |
| MemImage.PackedFour | util.py:34 | four bytes `a b c d` are written as the digits of `d c b a` |
| MemImage.HexLines | util.py:33-40 | `ceil(len / 4)` lines, all 8 characters long except possibly a shorter last one of twice the trailing byte count |
| MemImage.FullLines | tests/scripts/hex_converter.py:9-14 | `floor(len / 4)` lines, each of 8 characters |
| MemImage.ConvertHex | util.py:29-41 | the loop writes the lines of `HexLines` and returns the number of bytes |
| MemImage.HexLinesRoundTrip | util.py:33-40 | the `util.py` image reads back as exactly the input bytes |
| MemImage.HexLinesExtendFull | util.py:35-40 | the images of the two flavours agree on the complete groups |
| MemImage.Convert | tests/scripts/hex_converter.py:5-15 | the loop writes the complete groups only and returns the number of bytes, dropped ones included |
| MemImage.FullLinesRoundTrip | tests/scripts/hex_converter.py:9-14 | that image reads back as the bytes up to the trailing partial group |
| MemImage.FullLinesLoseTail | tests/scripts/hex_converter.py:9-15 | whenever the byte count is not a multiple of four, that image loses bytes |
| MemImage.FiveBytes | tests/scripts/hex_converter.py:9-15 | the five bytes `01 02 03 04 05` give the single line `04030201`, which decodes to the first four bytes only; the count stays five by `Convert`'s `memSizeBytes == |src|` |
| MemImage.ConvertInline | tests/hex_converter.py:3-11 | the inline loop writes the same lines as `convert` |
| MemImage.AddressWidth | util.py:51-53 | the least `w` with `2^w >= size`; the copy in `tests/scripts/hex_converter.py` computes the same |
| MemImage.AddressWidthLeast | util.py:51-53 | any width that fits the memory is at least the computed one |
| MemImage.AddressWidthOfPower | util.py:51-53 | a memory of `2^w` bytes needs exactly `w` bits |
| LibIo.Console.PutChar | tests/test_tiny_printf.c:7-9 | `_putchar` appends one character to the output |
| LibIo.Console.PutString | tests/test_tiny_printf.c:11-16 | `_putstring` appends the characters before the terminating NUL |
| LibIo.CString | tests/test_tiny_printf.c:11-16 | a C string is the longest NUL-free prefix |
| LibIo.DvPowers | tests/libio.c:6-19 | the table holds `10^9` down to `1` |
| LibIo.DvEntry | tests/libio.c:6-19 | each entry but the last is even and ten times the next; the last is the odd entry 1 that stops `xtoa` |
| LibIo.DvDecreasing | tests/libio.c:6-19 | entries further down the table are smaller |
| LibIo.Decimal | tests/libio.c:21-36 | a non-empty run of decimal digits, with no leading zero for a positive value and exactly `"0"` for zero |
| LibIo.DecimalRoundTrip | tests/libio.c:21-36 | the numeral reads back as the value |
| LibIo.DecimalLength | tests/libio.c:26-32 | the numeral has as many digits as the least power of ten above the value |
| LibIo.SubtractPower | tests/libio.c:28-30 | the count of subtractions is the digit `x / d` and what is left is `x % d` |
| LibIo.Xtoa | tests/libio.c:21-36 | `xtoa` writes the decimal numeral of its argument: the skip loop, one digit per remaining power, `"0"` for zero |
| LibIo.HexTable | tests/libio.c:40 | the digit table is `0123456789ABCDEF`, and each digit reads back as its nibble |
| LibIo.Puth | tests/libio.c:38-42 | `puth` writes the digit of the low nibble |
| LibIo.HexDigitsValue | tests/libio.c:76-86 | the digits read back as the value modulo `16^n` |
| LibIo.Hex8RoundTrip | tests/libio.c:76-86 | `%x` writes eight digits that read back as the 32-bit value |
| LibIo.Hex8Nibbles | tests/libio.c:77-85 | the digits are the nibbles of `i >> 28`, `i >> 24`, ..., `i` in that order |
| LibIo.ArgKinds | tests/libio.c:54-92 | each conversion takes at most one argument |
| LibIo.SignedConversion | tests/libio.c:67-75 | `%d` writes a non-negative value in decimal, and a negative one as `-` then its magnitude |
| LibIo.UnsignedConversion | tests/libio.c:67-75 | `%u` writes the value reinterpreted as unsigned 32-bit, the same as `%d` for non-negative values |
| LibIo.HexConversion | tests/libio.c:76-86 | `%x` writes eight upper-case digits of the value as unsigned 32-bit |
| LibIo.Convert | tests/libio.c:54-86 | the `switch` for `s c d u x` writes what `Conversion` defines for the argument |
| LibIo.PutDecimal | tests/libio.c:67-75 | a `-` for a negative signed value, then the decimal numeral |
| LibIo.PutHex | tests/libio.c:76-86 | the eight `puth` calls write the eight digits of the value |
| LibIo.TinyPrintf | tests/libio.c:44-103 | the output gains exactly the rendering of the format with its arguments, and one argument is fetched per `s c d u x` conversion |
| LibIo.RenderPlain | tests/libio.c:98-99 | ordinary characters are copied verbatim and take no argument |
| LibIo.RenderStops | tests/libio.c:87-97 | a NUL, or a `%` at the end of the format, ends the output |
| LibIo.AppendFrom | tests/libio.c:52-101 | formatting a closed format then more text writes the first part's output, then the rest's with the remaining arguments |
| LibIo.RenderAppend | tests/libio.c:52-101 | the same from the start of the format, for arguments and output alike |
| LibIo.PrintsSixtyNine | tests/test_tiny_printf.c:25 | the test driver's line prints `Should be 69: 69` |
| LibIo.PrintsHexPattern | tests/test_tiny_printf.c:21 | `%x` of the bit pattern `0xABCD1234` prints `ABCD1234` |
| LibIo.PrintsMinusFive | tests/test_tiny_printf.c:24 | `%d` of -5 prints `-5` |
| LibIo.PrintsUnsignedMax | tests/libio.c:67-75 | `%u` of -1 prints `4294967295` |
| LibMem.CopyForward | tests/lib/libmem.c:40-43 | the upward byte loop makes the destination the original source bytes, also when the destination starts at or below an overlapping source, and changes nothing else |
| LibMem.Memcpy | tests/libmem.c:3-9 | the destination holds the source bytes, the rest of memory is unchanged, and the result is `dest` |
| LibMem.AlignedMemcpy | tests/lib/libmem.c:3-46 | the word path and the byte path alike copy `src[0..n)` to `dest[0..n)` exactly, touch nothing else, and return `dest` |
| LibMem.CopyWords | tests/lib/libmem.c:7-35 | the leading bytes, the whole words from the second aligned word, and the trailing bytes together write exactly `dest[0..n)` |
| LibMem.Memmove | tests/lib/libmem.c:47-68 | the destination ends with the original source bytes, overlapping or not; nothing else changes; the result is `dest`; the byte-wise copy in `tests/libmem.c` has the same branches |
| LibMem.CopyBackward | tests/libmem.c:12-16 | the downward copy, for a destination above the source, makes the destination the original source bytes |
| LibMem.SizeT | tests/libmem.c:13 | a `size_t` is an integer modulo `2^32` |
| LibMem.BackwardIndex | tests/libmem.c:13 | the loop index of the backward loop is a `size_t` |
| LibMem.BackwardLoopOverruns | tests/lib/libmem.c:54 | the backward loops as written write outside the buffer: one past the end counting up, `0xFFFFFFFF` counting down |
| LibMem.ByteOf | tests/lib/libmem.c:74 | `(char)c` is `c` modulo 256 |
| LibMem.Memset | tests/lib/libmem.c:70-77 | the first `n` bytes become `(char)c`, the rest of memory is unchanged, and the result is `s`; the copy in `tests/libmem.c` is the same loop |
| LibMem.Diff | tests/lib/libmem.c:81-84 | the `unsigned char` difference lies in 0..255 and is zero exactly for equal bytes |
| LibMem.CompareFrom | tests/lib/libmem.c:82-87 | zero exactly when the remaining bytes are equal |
| LibMem.CompareFirstDifference | tests/lib/libmem.c:79-88 | at a first mismatch the result is its `unsigned char` difference, in 1..255 |
| LibMem.CompareZero | tests/lib/libmem.c:79-88 | the result is 0 exactly when the buffers are equal, and never negative |
| LibMem.CompareNotSigned | tests/lib/libmem.c:84-85 | a lesser first differing byte gives `256 - (b[i] - a[i])`, which is positive, not a negative value; `[1]` against `[2]` gives 255 |
| LibMem.Memcmp | tests/lib/libmem.c:79-88 | the early-return loop computes `Compare` of the two buffers; the copy in `tests/libmem.c` is the same loop |
| FpBits.HighestPowerOfFour | tests/old_fp_test.c:8-12 | the first loop leaves the largest power of four not above `num`, or 0 for 0 |
| FpBits.Isqrt | tests/old_fp_test.c:6-24 | `r * r <= num < (r + 1) * (r + 1)` for every 32-bit `num` |
| FpBits.DigitDone | tests/old_fp_test.c:14-22 | one pass of the second loop keeps the root bracketed, and its sums stay below `2^32` |
| FpBits.RootStep | tests/old_fp_test.c:15-20 | a root digit is kept exactly when the remainder covers it, and the new root stays bracketed |
| FpBits.NoWrap | tests/old_fp_test.c:15-17 | `res + bit` and `res + 2 * bit` never wrap |
| FpBits.CreateMask | tests/old_fp_test.c:32-38 | all ones for 32 bits or more, otherwise exactly the low `bits` bits |
| FpBits.FieldMasks | tests/old_fp_test.c:41-43 | the masks are 1, `0xFF` and `0x7FFFFF` |
| FpBits.ConstructFloatBits | tests/old_fp_test.c:40-44 | sign at bit 31, exponent at bits 23-30, mantissa at bits 0-22, each masked first |
| FpBits.DeconstructFloatBits | tests/old_fp_test.c:46-52 | each field is cut to its width: sign < 2, exponent < 256, mantissa < `2^23` |
| FpBits.ConstructDeconstruct | tests/old_fp_test.c:40-52 | packing the unpacked fields gives back every 32-bit pattern |
| FpBits.DeconstructConstruct | tests/old_fp_test.c:40-52 | unpacking the packed fields gives them cut to their widths, and fields that fit are unchanged |
| FpBits.MantissaOverflow | tests/old_fp_test.c:40-52 | a mantissa `0xFFFFFFFF` comes back as `0x7FFFFF` |
| Paths.Parse | riscv.py:120 | `Path(text)` has a POSIX root and only parts that are neither empty nor `.` |
| Paths.ParseStr | riscv.py:120 | parsing what `str` prints of a normal path gives the path back |
| Paths.ParseIdempotent | riscv.py:120 | printing a parsed path and parsing it again changes nothing |
| Paths.ParseUnder | riscv.py:120 | below a relative directory, a path's parts follow the directory's, whatever root the path itself has |
| Paths.SlashRelative | verilator.py:169 | `/` with a relative right side keeps the left root and appends the right parts |
| Paths.WithSuffix | riscv.py:120 | `with_suffix` fails exactly for an empty name, an invalid suffix, or a new name that is no part; otherwise it keeps the parent and names the result with the stem and the new suffix |
| Paths.WithSuffixSuffix | riscv.py:120 | on a named path a one-dot suffix always succeeds and becomes the suffix, keeping the stem and parent |
| Paths.SuffixedUnder | riscv.py:120 | `dir/p` with a new suffix has the directory's parts, the parts of `p` up to its last, then its stem and the suffix; a `p` without parts suffixes the directory |
| Paths.SuffixedUnderDirs | verilator.py:140 | the same below two directories, where a `p` without parts gives `top/sub<suffix>` |
| Paths.WithSuffixOfComposed | verilator.py:170 | on `dir/stem.ext` in normal form, `with_suffix` succeeds, swaps the suffix and keeps the directory and stem |
| Paths.StemAndSuffix | verilator.py:167 | the stem and the suffix make up the name |
| Strings.Strip | build.py:28 | `strip()` gives a slice of the text with no surrounding whitespace, and every character cut off either side is whitespace |
| Strings.Find | verilator.py:12 | the first occurrence of the separator, or `None` when there is none |
| Strings.JoinSplit | verilator.py:13 | joining the pieces of a split gives back the text |
| Strings.AfterIsTail | verilator.py:88-90 | `split(sep)[-1]` is a tail of the text |
| Strings.SplitTwo | verilator.py:12 | `(x + "+=" + y).split("+=")` is `[x, y]` when neither side holds the separator |

## Left out

- Files and processes are not modelled. The model is given lists of paths, lines and bytes instead. This covers:
  - `open`, `readlines` and `Path.mkdir` (build.py:135-137);
  - `glob` in `search_headers` and `search_sources` (build.py:106-117): the folders arrive as ordered dictionaries;
  - reading the manifest (verilator.py:98) and the symbol table and binary (riscv.py:95, 101-103);
  - the `convert_hex_file` and `convert_file` wrappers.
- The ninja writer and the rule-writing functions (`write_verilator_ninja_rules`, `write_verilator_compile_ninja_rules`, `write_riscv_ninja_rules`) are left out. They are command templates for an external tool. Build steps are records; the optional `opt` variable is omitted when it is `None`, as the writer omits it.
- `main`'s Verilator loop (build.py:213-216) is left out, because it passes `program=` to a constructor that does not take it (verilator.py:86). Only the program choice is modelled (`Registry.ProgramFor`).
- Paths are `PurePosixPath`s: the scripts build their paths with `/`, and Windows paths are not modelled.
- The colored logging of `util.py` and `print_info` are left out; they only print.
- Makefile.SplitVariable: treats `os.path.expandvars` on `verilator/include/<v>.cpp` as the identity; the environment is not modelled.
- Resolver.Resolution.Resolve: takes an acyclic import graph as a precondition. The graph is given as a rank map that decreases along imports. For a genuine cycle the source recurses until Python's recursion limit, before its circular check can fire; that is not modelled.
- Resolver.VisitCorrect: also assumes every import is registered, which is what the reference check before it establishes. The failing case is stated separately (`Resolver.UnregisteredImportFails`).
- Resolver.SourceFile.GetDependencies: the `deepcopy` is modelled by value. The waiting map is a fresh `map` and the caller's registry is a value that cannot change. Aliasing of `SourceFile` objects is not modelled.
- MemImage.AddressWidth: is the exact integer `ceil(log2 size)`. The float rounding of `math.log` is not modelled, and size 0, which raises in the source, is excluded by the precondition.
- Riscv.RiscvProgram.GetProgramStats: a `__stack` address of 0 makes `calculate_address_width` raise after the memory size is set. The model returns that error with the size set and no width. The hex text is read by `int(..., 16)` without its `0x` prefix, underscores, a leading `+` or `-` sign, and non-ASCII decimal digits, which Python also accepts.
- FpBits.CreateMask: excludes `bits == 31`, where `1 << 31` shifts into the sign bit of an `int`, which C leaves undefined.
- LibMem.Memcpy: requires disjoint buffers, as ISO C11 section 7.24.2.1 does.
- LibMem.AlignedMemcpy: requires disjoint buffers, as ISO C11 section 7.24.2.1 does.
- LibMem.Memmove: models the backward branch as its comment intends (see Findings). The code as written is captured by `LibMem.BackwardLoopOverruns`.
- LibIo.TinyPrintf: requires the arguments to match the conversions. An `int` argument must fit in 32 bits. A `va_arg` past the last argument is undefined in C; `ArgAt` reads `Int(0)` there.
- LibIo.PutDecimal: for `INT_MIN`, `n = -n` overflows, which C leaves undefined. The model writes the magnitude 2147483648, which is what two's-complement wrap-around then gives.
- From tests/old_fp_test.c, these are left out:
  - `float_to_bits` and `bits_to_float` (type punning);
  - `sqrt` and `print_rounding_mode` (floating point);
  - `print_float_info`, which only prints. It tests exponent `0x7F` where `0xFF` is meant.
- The context files are not part of this model:
  - the benchmark, the simulation harness and the float test-vector generators;
  - the assembler and compiler wrappers;
  - headers and test drivers. The expected outputs of tests/test_tiny_printf.c are stated as lemmas.

## Findings

| source | as written | input that shows it | evidently intended | confidence | as-written member | corrected member |
|---|---|---|---|---|---|---|
| tests/scripts/hex_converter.py:9-15 | no write after the loop, so a trailing partial word is dropped while the returned count still includes its bytes; tests/hex_converter.py:6-11 drops it likewise | the five bytes `01 02 03 04 05` give the single line `04030201` and the count 5 | write the trailing partial word as util.py:39-40 does, so the image reads back as the input | not executed | MemImage.FiveBytes | MemImage.HexLinesRoundTrip |
| tests/libmem.c:13 | the backward loop of `memmove` runs `for (size_t i = n-1; i >= 0; i--)`; `i >= 0` always holds for a `size_t`; tests/lib/libmem.c:54 even counts `i++` | any call with `dest > src` and `n >= 1`: after index 0 the index wraps to `0xFFFFFFFF`; counting up, the second pass writes index `n` | copy from index `n - 1` down to 0 and stop | not executed | LibMem.BackwardLoopOverruns | LibMem.CopyBackward |

/**
 * Dependency resolution of the build script (`SourceFile._get_dependencies`
 * and `get_dependencies`): the transitive imports of a source module,
 * flattened into the order a single-pass tool must read the files.
 *
 * The resolution threads two dictionaries through its recursion: the
 * not-yet-placed sources (`source_files`, a copy of the registry) and the
 * paths already placed (`source_files_used`). The functions below are the
 * specification; the class `Resolution` runs the same loops on mutable
 * fields and `SourceFile` caches the result.
 *
 * A module stays among the not-yet-placed ones until its own resolution
 * finishes, so a cyclic import graph makes the source recurse without end.
 * Every member therefore assumes an acyclic graph, witnessed by a rank that
 * strictly decreases along every import.
 */
module Resolver {
  import opened Seqs
  import opened Wrappers
  import opened Registry

  datatype ResolveError =
    | NotFound(path: string)       // an import neither waiting nor placed
    | Circular(path: string)       // the module was placed during its own resolution
    | NoSourceFiles(path: string)  // asked to resolve without a registry

  /** The state threaded through one top-level resolution. */
  datatype Walk = Walk(remaining: map<string, Source>, used: set<string>)

  /** Every registered source is keyed by its path and imports only lower-ranked sources. */
  ghost predicate Ranked(reg: map<string, Source>, rank: map<string, nat>) {
    && (forall p :: p in reg ==> p in rank && reg[p].path == p)
    && (forall p, x :: p in reg && x in reg && x in reg[p].imports ==> rank[x] < rank[p])
  }

  ghost predicate SubMap(m: map<string, Source>, reg: map<string, Source>) {
    forall p :: p in m ==> p in reg && m[p] == reg[p]
  }

  /** Every import names a registered source (what the referential check establishes). */
  ghost predicate Registered(reg: map<string, Source>) {
    forall p, x :: p in reg && x in reg[p].imports ==> x in reg
  }

  function Elems(s: seq<string>): set<string> {
    set x | x in s
  }

  /** Resolve one module: its imports first, then the module itself. */
  function Visit(ghost reg: map<string, Source>, ghost rank: map<string, nat>, m: Source, w: Walk)
    : (r: Result<(seq<string>, Walk), ResolveError>)
    requires Ranked(reg, rank) && SubMap(w.remaining, reg) && m.path in reg && reg[m.path] == m
    ensures r.Ok? ==> SubMap(r.value.1.remaining, reg) && r.value.1.remaining.Keys <= w.remaining.Keys
    ensures r.Ok? ==> r.value.1.used <= w.used + w.remaining.Keys
    ensures r.Ok? ==> m.path !in r.value.1.remaining
    decreases rank[m.path], 1, 0
  {
    match FirstPass(reg, rank, m, |m.imports|, w)
    case Err(e) => Err(e)
    case Ok((deps, w1)) =>
      var (deps2, w2) := SecondPass(m.imports, |m.imports|, deps, w1);
      if m.path in w2.remaining then
        Ok((deps2 + [m.path], Walk(w2.remaining - {m.path}, w2.used + {m.path})))
      else
        Err(Circular(m.path))
  }

  /** The first loop over `imports[..n]`: resolve each import still waiting, skip placed ones. */
  function FirstPass(ghost reg: map<string, Source>, ghost rank: map<string, nat>, m: Source, n: nat, w: Walk)
    : (r: Result<(seq<string>, Walk), ResolveError>)
    requires Ranked(reg, rank) && SubMap(w.remaining, reg) && m.path in reg && reg[m.path] == m
    requires n <= |m.imports|
    ensures r.Ok? ==> SubMap(r.value.1.remaining, reg) && r.value.1.remaining.Keys <= w.remaining.Keys
    ensures r.Ok? ==> r.value.1.used <= w.used + w.remaining.Keys
    decreases rank[m.path], 0, n
  {
    if n == 0 then Ok(([], w))
    else
      match FirstPass(reg, rank, m, n - 1, w)
      case Err(e) => Err(e)
      case Ok((deps, w1)) =>
        var x := m.imports[n - 1];
        if x in w1.remaining then
          match Visit(reg, rank, w1.remaining[x], w1)
          case Err(e) => Err(e)
          case Ok((sub, w2)) => Ok((deps + sub, w2))
        else if x in w1.used then Ok((deps, w1))
        else Err(NotFound(x))
  }

  /** The second loop over `imports[..n]`: place any import still waiting. */
  function SecondPass(imports: seq<string>, n: nat, deps: seq<string>, w: Walk): (r: (seq<string>, Walk))
    requires n <= |imports|
    ensures SubMap(r.1.remaining, w.remaining)
    ensures r.1.used <= w.used + w.remaining.Keys
  {
    if n == 0 then (deps, w)
    else
      var (d, w1) := SecondPass(imports, n - 1, deps, w);
      var x := imports[n - 1];
      if x in w1.remaining then (d + [x], Walk(w1.remaining - {x}, w1.used + {x}))
      else (d, w1)
  }

  function WrapperList(wrapper: Option<string>): seq<string> {
    if wrapper.Some? then [wrapper.value] else []
  }

  /**
   * What `get_dependencies` computes the first time: a fresh copy of the
   * registry as the waiting sources, nothing placed, and the wrapper last.
   */
  function Dependencies(reg: map<string, Source>, ghost rank: map<string, nat>, m: Source)
    : Result<seq<string>, ResolveError>
    requires Ranked(reg, rank) && m.path in reg && reg[m.path] == m
  {
    match Visit(reg, rank, m, Walk(reg, {}))
    case Err(e) => Err(e)
    case Ok((out, _)) => Ok(out + WrapperList(m.wrapper))
  }

  // Correctness of the resolution on an acyclic, fully registered graph.

  /** Placed and waiting paths partition the registry. */
  ghost predicate Partition(reg: map<string, Source>, w: Walk) {
    w.used !! w.remaining.Keys && w.used + w.remaining.Keys == reg.Keys
  }

  /** Every import of every emitted path was placed before the walk or earlier in `out`. */
  ghost predicate Ordered(reg: map<string, Source>, before: set<string>, out: seq<string>) {
    forall j :: 0 <= j < |out| ==> (out[j] in reg &&
      forall x :: x in reg[out[j]].imports ==> x in before || x in out[..j])
  }

  /** What one resolution step promises about what it emits and how it moves the state. */
  ghost predicate Emits(reg: map<string, Source>, rank: map<string, nat>, bound: int,
                        w: Walk, out: seq<string>, w': Walk)
    requires forall p :: p in reg ==> p in rank
    requires w.remaining.Keys <= reg.Keys
  {
    && Partition(reg, w')
    && Distinct(out)
    && Elems(out) <= w.remaining.Keys
    && w'.used == w.used + Elems(out)
    && w'.remaining.Keys == w.remaining.Keys - Elems(out)
    && (forall e :: e in Elems(out) ==> rank[e] <= bound)
    && Ordered(reg, w.used, out)
  }

  lemma PrefixConcat(a: seq<string>, b: seq<string>, j: nat)
    requires |a| <= j <= |a + b|
    ensures (a + b)[..j] == a + b[..j - |a|]
  {
  }

  lemma OrderedConcat(reg: map<string, Source>, before: set<string>, a: seq<string>, b: seq<string>)
    requires Ordered(reg, before, a)
    requires Ordered(reg, before + Elems(a), b)
    ensures Ordered(reg, before, a + b)
  {
    forall j | 0 <= j < |a + b|
      ensures (a + b)[j] in reg &&
        forall x :: x in reg[(a + b)[j]].imports ==> x in before || x in (a + b)[..j]
    {
      if j < |a| {
        assert (a + b)[..j] == a[..j];
      } else {
        var k := j - |a|;
        assert (a + b)[j] == b[k];
        PrefixConcat(a, b, j);
        forall x | x in reg[b[k]].imports
          ensures x in before || x in (a + b)[..j]
        {
          assert x in before + Elems(a) || x in b[..k];
        }
      }
    }
  }

  /** Two steps, one after the other, emit the concatenation of what each emits. */
  lemma EmitsConcat(reg: map<string, Source>, rank: map<string, nat>, bound: int,
                    w: Walk, a: seq<string>, w1: Walk, b: seq<string>, w2: Walk)
    requires forall p :: p in reg ==> p in rank
    requires w.remaining.Keys <= reg.Keys && w1.remaining.Keys <= reg.Keys
    requires Emits(reg, rank, bound, w, a, w1)
    requires Emits(reg, rank, bound, w1, b, w2)
    ensures Emits(reg, rank, bound, w, a + b, w2)
  {
    ElemsConcat(a, b);
    WalkCompose(w.used, w.remaining.Keys, Elems(a), w1.used, w1.remaining.Keys, Elems(b), w2.used, w2.remaining.Keys);
    assert forall y :: y in b ==> y !in a by {
      forall y | y in b ensures y !in a {
        assert y in Elems(b);
      }
    }
    DistinctConcat(a, b);
    OrderedConcat(reg, w.used, a, b);
  }

  lemma ElemsConcat(a: seq<string>, b: seq<string>)
    ensures Elems(a + b) == Elems(a) + Elems(b)
  {
  }

  /** The bookkeeping of two steps: placed and waiting sets move by the union of what each emits. */
  lemma WalkCompose(u: set<string>, r: set<string>, a: set<string>, u1: set<string>, r1: set<string>,
                    b: set<string>, u2: set<string>, r2: set<string>)
    requires a <= r && u1 == u + a && r1 == r - a
    requires b <= r1 && u2 == u1 + b && r2 == r1 - b
    ensures a + b <= r && u2 == u + (a + b) && r2 == r - (a + b) && a !! b
  {
  }

  lemma EmitsWeaken(reg: map<string, Source>, rank: map<string, nat>, bound: int, bound': int,
                    w: Walk, out: seq<string>, w': Walk)
    requires forall p :: p in reg ==> p in rank
    requires w.remaining.Keys <= reg.Keys
    requires bound <= bound' && Emits(reg, rank, bound, w, out, w')
    ensures Emits(reg, rank, bound', w, out, w')
  {
  }

  lemma {:induction false} SecondPassIdle(imports: seq<string>, n: nat, deps: seq<string>, w: Walk)
    requires n <= |imports|
    requires forall k :: 0 <= k < n ==> imports[k] !in w.remaining
    ensures SecondPass(imports, n, deps, w) == (deps, w)
  {
    if n > 0 {
      SecondPassIdle(imports, n - 1, deps, w);
    }
  }

  /**
   * On an acyclic graph whose imports are all registered, resolving a
   * waiting module succeeds, emits each newly reached module once, every one
   * after its own imports, and the module itself last.
   */
  lemma {:induction false} VisitCorrect(reg: map<string, Source>, rank: map<string, nat>, m: Source, w: Walk)
    requires Ranked(reg, rank) && Registered(reg) && SubMap(w.remaining, reg)
    requires m.path in reg && reg[m.path] == m
    requires Partition(reg, w) && m.path in w.remaining
    ensures Visit(reg, rank, m, w).Ok?
    ensures var (out, w') := Visit(reg, rank, m, w).value;
      && Emits(reg, rank, rank[m.path], w, out, w')
      && |out| > 0 && out[|out| - 1] == m.path
    decreases rank[m.path], 1, 0, 0
  {
    var n := |m.imports|;
    FirstPassCorrect(reg, rank, m, n, w);
    var (deps, w1) := FirstPass(reg, rank, m, n, w).value;
    assert m.path !in Elems(deps);
    SecondPassIdle(m.imports, n, deps, w1);
    var out := deps + [m.path];
    var w' := Walk(w1.remaining - {m.path}, w1.used + {m.path});
    VisitDone(reg, rank, m, w, deps, w1);
    ElemsConcat(deps, [m.path]);
    assert Elems([m.path]) == {m.path};
    WalkCompose(w.used, w.remaining.Keys, Elems(deps), w1.used, w1.remaining.Keys, {m.path}, w'.used, w'.remaining.Keys);
    DistinctConcat(deps, [m.path]);
    assert Ordered(reg, w.used + Elems(deps), [m.path]) by {
      assert [m.path][..0] == [];
    }
    OrderedConcat(reg, w.used, deps, [m.path]);
  }

  /** The first loop over `imports[..n]` places every one of them, each below the module's rank. */
  lemma {:induction false} FirstPassCorrect(reg: map<string, Source>, rank: map<string, nat>, m: Source, n: nat, w: Walk)
    requires Ranked(reg, rank) && Registered(reg) && SubMap(w.remaining, reg)
    requires m.path in reg && reg[m.path] == m && n <= |m.imports|
    requires Partition(reg, w) && m.path in w.remaining
    ensures FirstPass(reg, rank, m, n, w).Ok?
    ensures var (out, w') := FirstPass(reg, rank, m, n, w).value;
      && Emits(reg, rank, rank[m.path] as int - 1, w, out, w')
      && (forall k :: 0 <= k < n ==> m.imports[k] in w'.used)
    decreases rank[m.path], 0, n, 2
  {
    if n == 0 {
      assert Elems([]) == {};
    } else {
      FirstPassCorrect(reg, rank, m, n - 1, w);
      var (deps, w1) := FirstPass(reg, rank, m, n - 1, w).value;
      FirstPassStep(reg, rank, m, n, w, deps, w1);
    }
  }

  /** One more import of the first loop, given what the loop promised so far. */
  lemma FirstPassStep(reg: map<string, Source>, rank: map<string, nat>, m: Source, n: nat, w: Walk,
                      deps: seq<string>, w1: Walk)
    requires Ranked(reg, rank) && Registered(reg) && SubMap(w.remaining, reg)
    requires m.path in reg && reg[m.path] == m && 0 < n <= |m.imports|
    requires FirstPass(reg, rank, m, n - 1, w) == Ok((deps, w1))
    requires w.remaining.Keys <= reg.Keys && SubMap(w1.remaining, reg)
    requires Partition(reg, w1) && Emits(reg, rank, rank[m.path] as int - 1, w, deps, w1)
    requires forall k :: 0 <= k < n - 1 ==> m.imports[k] in w1.used
    ensures FirstPass(reg, rank, m, n, w).Ok?
    ensures var r := FirstPass(reg, rank, m, n, w).value;
      && Emits(reg, rank, rank[m.path] as int - 1, w, r.0, r.1)
      && (forall k :: 0 <= k < n ==> m.imports[k] in r.1.used)
    decreases rank[m.path], 0, n, 1
  {
    var x := m.imports[n - 1];
    if x in w1.remaining {
      FirstPassVisitStep(reg, rank, m, n, w, deps, w1);
    } else {
      assert x in reg;
      assert x in w1.used;
      assert FirstPass(reg, rank, m, n, w) == Ok((deps, w1));
    }
  }

  lemma FirstPassVisitStep(reg: map<string, Source>, rank: map<string, nat>, m: Source, n: nat, w: Walk,
                           deps: seq<string>, w1: Walk)
    requires Ranked(reg, rank) && Registered(reg) && SubMap(w.remaining, reg)
    requires m.path in reg && reg[m.path] == m && 0 < n <= |m.imports|
    requires FirstPass(reg, rank, m, n - 1, w) == Ok((deps, w1))
    requires w.remaining.Keys <= reg.Keys && SubMap(w1.remaining, reg)
    requires Partition(reg, w1) && Emits(reg, rank, rank[m.path] as int - 1, w, deps, w1)
    requires forall k :: 0 <= k < n - 1 ==> m.imports[k] in w1.used
    requires m.imports[n - 1] in w1.remaining
    ensures FirstPass(reg, rank, m, n, w).Ok?
    ensures var r := FirstPass(reg, rank, m, n, w).value;
      && Emits(reg, rank, rank[m.path] as int - 1, w, r.0, r.1)
      && (forall k :: 0 <= k < n ==> m.imports[k] in r.1.used)
    decreases rank[m.path], 0, n, 0
  {
    var x := m.imports[n - 1];
    var mx := w1.remaining[x];
    assert mx == reg[x] && mx.path == x;
    assert rank[x] < rank[m.path];
    VisitCorrect(reg, rank, mx, w1);
    var (sub, w2) := Visit(reg, rank, mx, w1).value;
    assert FirstPass(reg, rank, m, n, w) == Ok((deps + sub, w2));
    StepEmits(reg, rank, rank[m.path] as int - 1, w, deps, w1, x, sub, w2);
    PlacedGrows(m.imports, n, w1.used, w2.used);
  }

  lemma PlacedGrows(imports: seq<string>, n: nat, used: set<string>, used': set<string>)
    requires 0 < n <= |imports|
    requires forall k :: 0 <= k < n - 1 ==> imports[k] in used
    requires used <= used' && imports[n - 1] in used'
    ensures forall k :: 0 <= k < n ==> imports[k] in used'
  {
  }

  /** A visit of import `x` appended to the first loop's output keeps the loop's promise. */
  lemma StepEmits(reg: map<string, Source>, rank: map<string, nat>, bound: int,
                  w: Walk, deps: seq<string>, w1: Walk, x: string, sub: seq<string>, w2: Walk)
    requires forall p :: p in reg ==> p in rank
    requires w.remaining.Keys <= reg.Keys && w1.remaining.Keys <= reg.Keys
    requires x in reg && rank[x] <= bound
    requires Emits(reg, rank, bound, w, deps, w1)
    requires Emits(reg, rank, rank[x], w1, sub, w2)
    requires |sub| > 0 && sub[|sub| - 1] == x
    ensures Emits(reg, rank, bound, w, deps + sub, w2)
    ensures w1.used <= w2.used && x in w2.used
  {
    EmitsWeaken(reg, rank, rank[x], bound, w1, sub, w2);
    EmitsConcat(reg, rank, bound, w, deps, w1, sub, w2);
    assert x in Elems(sub);
  }

  /** Registry paths closed under imports: whatever reaches into `S` stays in `S`. */
  ghost predicate Closed(reg: map<string, Source>, S: set<string>) {
    forall p, x :: p in S && p in reg && x in reg[p].imports ==> x in S
  }

  /** Resolution emits nothing outside any import-closed set that holds the module. */
  lemma {:induction false} VisitWithin(reg: map<string, Source>, rank: map<string, nat>, m: Source, w: Walk, S: set<string>)
    requires Ranked(reg, rank) && SubMap(w.remaining, reg) && m.path in reg && reg[m.path] == m
    requires Closed(reg, S) && m.path in S
    ensures Visit(reg, rank, m, w).Ok? ==> Elems(Visit(reg, rank, m, w).value.0) <= S
    decreases rank[m.path], 1, 0
  {
    var n := |m.imports|;
    FirstPassWithin(reg, rank, m, n, w, S);
    if FirstPass(reg, rank, m, n, w).Ok? {
      var (deps, w1) := FirstPass(reg, rank, m, n, w).value;
      SecondPassWithin(m.imports, n, deps, w1, S);
    }
  }

  lemma {:induction false} FirstPassWithin(reg: map<string, Source>, rank: map<string, nat>, m: Source, n: nat, w: Walk, S: set<string>)
    requires Ranked(reg, rank) && SubMap(w.remaining, reg) && m.path in reg && reg[m.path] == m
    requires n <= |m.imports| && Closed(reg, S) && m.path in S
    ensures FirstPass(reg, rank, m, n, w).Ok? ==> Elems(FirstPass(reg, rank, m, n, w).value.0) <= S
    decreases rank[m.path], 0, n
  {
    if n > 0 {
      FirstPassWithin(reg, rank, m, n - 1, w, S);
      if FirstPass(reg, rank, m, n - 1, w).Ok? {
        var (deps, w1) := FirstPass(reg, rank, m, n - 1, w).value;
        var x := m.imports[n - 1];
        if x in w1.remaining {
          assert x in S;
          VisitWithin(reg, rank, w1.remaining[x], w1, S);
          if Visit(reg, rank, w1.remaining[x], w1).Ok? {
            var sub := Visit(reg, rank, w1.remaining[x], w1).value.0;
            assert Elems(deps + sub) == Elems(deps) + Elems(sub);
          }
        }
      }
    }
  }

  lemma {:induction false} SecondPassWithin(imports: seq<string>, n: nat, deps: seq<string>, w: Walk, S: set<string>)
    requires n <= |imports| && Elems(deps) <= S
    requires forall x :: x in imports ==> x in S
    ensures Elems(SecondPass(imports, n, deps, w).0) <= S
  {
    if n > 0 {
      SecondPassWithin(imports, n - 1, deps, w, S);
      var d := SecondPass(imports, n - 1, deps, w).0;
      assert Elems(d + [imports[n - 1]]) == Elems(d) + {imports[n - 1]};
    }
  }

  /**
   * The resolved list of an acyclic, fully registered graph: every module
   * once, each after all of its own imports, the module itself last before
   * the optional wrapper.
   */
  lemma ResolvedOrder(reg: map<string, Source>, rank: map<string, nat>, m: Source)
    requires Ranked(reg, rank) && Registered(reg) && m.path in reg && reg[m.path] == m
    ensures Dependencies(reg, rank, m).Ok?
    ensures var deps := Dependencies(reg, rank, m).value;
      var n := |deps| - |WrapperList(m.wrapper)|;
      && 0 < n <= |deps|
      && deps[n - 1] == m.path
      && deps[n..] == WrapperList(m.wrapper)
      && Distinct(deps[..n])
      && Ordered(reg, {}, deps[..n])
  {
    var w := Walk(reg, {});
    VisitCorrect(reg, rank, m, w);
    var out := Visit(reg, rank, m, w).value.0;
    PartsOf(out, WrapperList(m.wrapper));
  }

  /**
   * Nothing outside the import closure is emitted: the resolved modules lie
   * in every import-closed set holding the module, so with `ResolvedOrder`
   * they are exactly its transitive imports and the module itself.
   */
  lemma ResolvedIsLeast(reg: map<string, Source>, rank: map<string, nat>, m: Source, S: set<string>)
    requires Ranked(reg, rank) && m.path in reg && reg[m.path] == m
    requires Closed(reg, S) && m.path in S
    ensures Dependencies(reg, rank, m).Ok? ==>
      var deps := Dependencies(reg, rank, m).value;
      forall j :: 0 <= j < |deps| - |WrapperList(m.wrapper)| ==> deps[j] in S
  {
    var w := Walk(reg, {});
    VisitWithin(reg, rank, m, w, S);
    if Visit(reg, rank, m, w).Ok? {
      var out := Visit(reg, rank, m, w).value.0;
      var deps := out + WrapperList(m.wrapper);
      forall j | 0 <= j < |out|
        ensures deps[j] in S
      {
        assert deps[j] == out[j] && out[j] in Elems(out);
      }
    }
  }

  /**
   * An import that is not registered makes the first loop fail once it gets
   * there, and the error names a path that was neither waiting nor placed.
   */
  lemma {:induction false} FirstPassFails(reg: map<string, Source>, rank: map<string, nat>, m: Source, n: nat, w: Walk, i: nat)
    requires Ranked(reg, rank) && SubMap(w.remaining, reg) && m.path in reg && reg[m.path] == m
    requires i < n <= |m.imports| && m.imports[i] !in reg && w.used <= reg.Keys
    ensures FirstPass(reg, rank, m, n, w).Err?
    ensures FirstPass(reg, rank, m, n, w).error.NotFound?
    ensures FirstPass(reg, rank, m, n, w).error.path !in w.used + w.remaining.Keys
  {
    if i < n - 1 {
      FirstPassFails(reg, rank, m, n - 1, w, i);
    }
    FirstPassOutcome(reg, rank, m, n, w);
  }

  /** Resolving a module that imports an unregistered path fails with "not found" for an unregistered path. */
  lemma UnregisteredImportFails(reg: map<string, Source>, rank: map<string, nat>, m: Source, i: nat)
    requires Ranked(reg, rank) && m.path in reg && reg[m.path] == m
    requires i < |m.imports| && m.imports[i] !in reg
    ensures Dependencies(reg, rank, m).Err?
    ensures Dependencies(reg, rank, m).error.NotFound?
    ensures Dependencies(reg, rank, m).error.path !in reg
  {
    FirstPassFails(reg, rank, m, |m.imports|, Walk(reg, {}), i);
  }

  /**
   * On an acyclic graph resolution fails only with "not found", and only for
   * a path that is not registered; the circular-dependency error never
   * occurs.
   */
  lemma DependenciesFail(reg: map<string, Source>, rank: map<string, nat>, m: Source)
    requires Ranked(reg, rank) && m.path in reg && reg[m.path] == m
    ensures Dependencies(reg, rank, m).Err? ==>
      Dependencies(reg, rank, m).error.NotFound? && Dependencies(reg, rank, m).error.path !in reg
  {
    VisitOutcome(reg, rank, m, Walk(reg, {}));
  }

  /**
   * How a step of the resolution moves the state: paths only go from
   * waiting to placed, and only paths ranked at most `bound` go.
   */
  ghost predicate Moves(rank: map<string, nat>, bound: int, w: Walk, w': Walk) {
    && w'.used + w'.remaining.Keys == w.used + w.remaining.Keys
    && w'.remaining.Keys <= w.remaining.Keys
    && (forall p :: p in w.remaining && p !in w'.remaining ==> p in rank && rank[p] <= bound)
  }

  lemma MovesCompose(rank: map<string, nat>, bound: int, bound': int, w: Walk, w1: Walk, w2: Walk)
    requires bound' <= bound && Moves(rank, bound, w, w1) && Moves(rank, bound', w1, w2)
    ensures Moves(rank, bound, w, w2)
  {
  }

  /**
   * Resolving a module that is still waiting moves only paths ranked at most
   * its own, and fails only with "not found" for a path that was neither
   * waiting nor placed: it is never reported circular.
   */
  lemma {:induction false} VisitOutcome(reg: map<string, Source>, rank: map<string, nat>, m: Source, w: Walk)
    requires Ranked(reg, rank) && SubMap(w.remaining, reg) && m.path in reg && reg[m.path] == m
    requires m.path in w.remaining
    ensures var r := Visit(reg, rank, m, w);
      && (r.Ok? ==> Moves(rank, rank[m.path], w, r.value.1))
      && (r.Err? ==> r.error.NotFound? && r.error.path !in w.used + w.remaining.Keys)
    decreases rank[m.path], 1, 0
  {
    var n := |m.imports|;
    FirstPassOutcome(reg, rank, m, n, w);
    if FirstPass(reg, rank, m, n, w).Ok? {
      var (deps, w1) := FirstPass(reg, rank, m, n, w).value;
      assert m.path in w1.remaining;
      SecondPassOutcome(m.imports, n, deps, w1);
      var (d2, w2) := SecondPass(m.imports, n, deps, w1);
      assert m.path !in m.imports;
      assert m.path in w2.remaining;
      var w' := Walk(w2.remaining - {m.path}, w2.used + {m.path});
      assert Visit(reg, rank, m, w) == Ok((d2 + [m.path], w'));
      forall p | p in w1.remaining && p !in w2.remaining
        ensures p in rank && rank[p] <= rank[m.path]
      {
        assert p in m.imports && p in reg;
      }
    }
  }

  /** The first loop moves only paths ranked below the module and fails only for an unknown import. */
  lemma {:induction false} FirstPassOutcome(reg: map<string, Source>, rank: map<string, nat>, m: Source, n: nat, w: Walk)
    requires Ranked(reg, rank) && SubMap(w.remaining, reg) && m.path in reg && reg[m.path] == m
    requires n <= |m.imports|
    ensures var r := FirstPass(reg, rank, m, n, w);
      && (r.Ok? ==> Moves(rank, rank[m.path] as int - 1, w, r.value.1))
      && (r.Err? ==> r.error.NotFound? && r.error.path !in w.used + w.remaining.Keys)
    decreases rank[m.path], 0, n
  {
    if n > 0 {
      FirstPassOutcome(reg, rank, m, n - 1, w);
      if FirstPass(reg, rank, m, n - 1, w).Ok? {
        var (deps, w1) := FirstPass(reg, rank, m, n - 1, w).value;
        var x := m.imports[n - 1];
        if x in w1.remaining {
          var mx := w1.remaining[x];
          assert mx == reg[x] && mx.path == x;
          assert rank[x] < rank[m.path];
          VisitOutcome(reg, rank, mx, w1);
          if Visit(reg, rank, mx, w1).Ok? {
            MovesCompose(rank, rank[m.path] as int - 1, rank[x], w, w1, Visit(reg, rank, mx, w1).value.1);
          }
        }
      }
    }
  }

  /** The second loop moves only imports of the module from waiting to placed. */
  lemma {:induction false} SecondPassOutcome(imports: seq<string>, n: nat, deps: seq<string>, w: Walk)
    requires n <= |imports|
    ensures var w' := SecondPass(imports, n, deps, w).1;
      && w'.used + w'.remaining.Keys == w.used + w.remaining.Keys
      && w'.remaining.Keys <= w.remaining.Keys
      && (forall p :: p in w.remaining && p !in w'.remaining ==> p in imports)
  {
    if n > 0 {
      SecondPassOutcome(imports, n - 1, deps, w);
    }
  }

  /** Once the first loop fails, further imports do not change the error. */
  lemma {:induction false} FirstPassErrSticks(reg: map<string, Source>, rank: map<string, nat>, m: Source, i: nat, n: nat, w: Walk)
    requires Ranked(reg, rank) && SubMap(w.remaining, reg) && m.path in reg && reg[m.path] == m
    requires i <= n <= |m.imports| && FirstPass(reg, rank, m, i, w).Err?
    ensures FirstPass(reg, rank, m, n, w) == FirstPass(reg, rank, m, i, w)
    decreases n
  {
    if i < n {
      FirstPassErrSticks(reg, rank, m, i, n - 1, w);
    }
  }

  /** One more import of the first loop, in each of its three cases. */
  lemma FirstPassUnfold(reg: map<string, Source>, rank: map<string, nat>, m: Source, i: nat, w0: Walk,
                        deps: seq<string>, w: Walk)
    requires Ranked(reg, rank) && SubMap(w0.remaining, reg) && m.path in reg && reg[m.path] == m
    requires i < |m.imports| && FirstPass(reg, rank, m, i, w0) == Ok((deps, w))
    ensures SubMap(w.remaining, reg)
    ensures var x := m.imports[i];
      && (x in w.remaining ==>
            FirstPass(reg, rank, m, i + 1, w0) ==
              (match Visit(reg, rank, w.remaining[x], w)
               case Err(e) => Err(e)
               case Ok((sub, w2)) => Ok((deps + sub, w2))))
      && (x !in w.remaining && x in w.used ==> FirstPass(reg, rank, m, i + 1, w0) == Ok((deps, w)))
      && (x !in w.remaining && x !in w.used ==> FirstPass(reg, rank, m, i + 1, w0) == Err(NotFound(x)))
  {
  }

  /** One more import of the second loop: placed if it is still waiting. */
  lemma SecondPassUnfold(imports: seq<string>, i: nat, deps1: seq<string>, w1: Walk, deps: seq<string>, w: Walk)
    requires i < |imports| && SecondPass(imports, i, deps1, w1) == (deps, w)
    ensures imports[i] in w.remaining ==>
      SecondPass(imports, i + 1, deps1, w1) ==
        (deps + [imports[i]], Walk(w.remaining - {imports[i]}, w.used + {imports[i]}))
    ensures imports[i] !in w.remaining ==> SecondPass(imports, i + 1, deps1, w1) == (deps, w)
  {
  }

  /** A failed first loop fails the whole visit with the same error. */
  lemma VisitFails(reg: map<string, Source>, rank: map<string, nat>, m: Source, w0: Walk)
    requires Ranked(reg, rank) && SubMap(w0.remaining, reg) && m.path in reg && reg[m.path] == m
    requires FirstPass(reg, rank, m, |m.imports|, w0).Err?
    ensures Visit(reg, rank, m, w0) == Err(FirstPass(reg, rank, m, |m.imports|, w0).error)
  {
  }

  /** After both loops the visit places the module, or fails if it was placed meanwhile. */
  lemma VisitDone(reg: map<string, Source>, rank: map<string, nat>, m: Source, w0: Walk,
                  deps1: seq<string>, w1: Walk)
    requires Ranked(reg, rank) && SubMap(w0.remaining, reg) && m.path in reg && reg[m.path] == m
    requires FirstPass(reg, rank, m, |m.imports|, w0) == Ok((deps1, w1))
    ensures var (d2, w2) := SecondPass(m.imports, |m.imports|, deps1, w1);
      Visit(reg, rank, m, w0) ==
        if m.path in w2.remaining then Ok((d2 + [m.path], Walk(w2.remaining - {m.path}, w2.used + {m.path})))
        else Err(Circular(m.path))
  {
  }

  /**
   * The recursion of `_get_dependencies` on mutable state: `remaining` plays
   * the copied `source_files` dictionary and `used` the keys of
   * `source_files_used`. Each call mirrors the specification `Visit`.
   */
  class Resolution {
    var remaining: map<string, Source>
    var used: set<string>

    constructor(sourceFiles: map<string, Source>)
      ensures remaining == sourceFiles && used == {}
    {
      remaining := sourceFiles;
      used := {};
    }

    /** Resolve `m`, moving every newly placed path from `remaining` to `used`. */
    method Resolve(ghost reg: map<string, Source>, ghost rank: map<string, nat>, m: Source)
      returns (r: Result<seq<string>, ResolveError>)
      requires Ranked(reg, rank) && SubMap(remaining, reg) && m.path in reg && reg[m.path] == m
      modifies this
      ensures var s := Visit(reg, rank, m, old(Walk(remaining, used)));
        && (r.Ok? <==> s.Ok?)
        && (s.Ok? ==> r.value == s.value.0 && Walk(remaining, used) == s.value.1)
        && (s.Err? ==> r.error == s.error)
      ensures SubMap(remaining, reg)
      decreases rank[m.path], 1
    {
      ghost var w0 := Walk(remaining, used);
      var first := ResolveImports(reg, rank, m);
      if first.Err? {
        VisitFails(reg, rank, m, w0);
        return Err(first.error);
      }
      ghost var w1 := Walk(remaining, used);
      var deps := PlaceImports(m.imports, first.value);
      VisitDone(reg, rank, m, w0, first.value, w1);
      if m.path in remaining {
        used := used + {m.path};
        remaining := remaining - {m.path};
        return Ok(deps + [m.path]);
      } else {
        return Err(Circular(m.path));
      }
    }

    /**
     * The first loop: resolve every import still waiting, in order, and
     * append what it emits; an import neither waiting nor placed fails.
     */
    method ResolveImports(ghost reg: map<string, Source>, ghost rank: map<string, nat>, m: Source)
      returns (r: Result<seq<string>, ResolveError>)
      requires Ranked(reg, rank) && SubMap(remaining, reg) && m.path in reg && reg[m.path] == m
      modifies this
      ensures var s := FirstPass(reg, rank, m, |m.imports|, old(Walk(remaining, used)));
        && (r.Ok? <==> s.Ok?)
        && (s.Ok? ==> r.value == s.value.0 && Walk(remaining, used) == s.value.1)
        && (s.Err? ==> r.error == s.error)
      ensures SubMap(remaining, reg)
      decreases rank[m.path], 0
    {
      ghost var w0 := Walk(remaining, used);
      var deps: seq<string> := [];
      var i := 0;
      while i < |m.imports|
        invariant 0 <= i <= |m.imports|
        invariant SubMap(remaining, reg)
        invariant FirstPass(reg, rank, m, i, w0) == Ok((deps, Walk(remaining, used)))
      {
        var x := m.imports[i];
        FirstPassUnfold(reg, rank, m, i, w0, deps, Walk(remaining, used));
        if x in remaining {
          assert x in reg && reg[x] == remaining[x] && x in reg[m.path].imports;
          var sub := Resolve(reg, rank, remaining[x]);
          if sub.Err? {
            FirstPassErrSticks(reg, rank, m, i + 1, |m.imports|, w0);
            return Err(sub.error);
          }
          deps := deps + sub.value;
        } else if x !in used {
          FirstPassErrSticks(reg, rank, m, i + 1, |m.imports|, w0);
          return Err(NotFound(x));
        }
        i := i + 1;
      }
      return Ok(deps);
    }

    /** The second loop: move every import still waiting to the placed ones and append it. */
    method PlaceImports(imports: seq<string>, deps0: seq<string>) returns (deps: seq<string>)
      modifies this
      ensures (deps, Walk(remaining, used)) == SecondPass(imports, |imports|, deps0, old(Walk(remaining, used)))
    {
      ghost var w1 := Walk(remaining, used);
      deps := deps0;
      var i := 0;
      while i < |imports|
        invariant 0 <= i <= |imports|
        invariant SecondPass(imports, i, deps0, w1) == (deps, Walk(remaining, used))
      {
        var x := imports[i];
        SecondPassUnfold(imports, i, deps0, w1, deps, Walk(remaining, used));
        if x in remaining {
          used := used + {x};
          remaining := remaining - {x};
          deps := deps + [x];
        }
        i := i + 1;
      }
    }
  }

  /** A `.sv` file with its memoised dependency list (`SourceFile`). */
  class SourceFile {
    const source: Source
    var dependencies: Option<seq<string>>

    constructor(source: Source)
      ensures this.source == source && dependencies == None
    {
      this.source := source;
      dependencies := None;
    }

    /**
     * `get_dependencies`: the first successful call resolves against a copy
     * of `sourceFiles` and caches the list with the wrapper appended; later
     * calls return the cache whatever they are given. Without a registry and
     * without a cache the call fails.
     */
    method GetDependencies(sourceFiles: Option<map<string, Source>>, ghost rank: map<string, nat>)
      returns (r: Result<seq<string>, ResolveError>)
      requires sourceFiles.Some? ==>
        Ranked(sourceFiles.value, rank) && source.path in sourceFiles.value && sourceFiles.value[source.path] == source
      modifies this
      ensures old(dependencies).Some? ==> r == Ok(old(dependencies).value) && dependencies == old(dependencies)
      ensures old(dependencies).None? && sourceFiles.None? ==> r == Err(NoSourceFiles(source.path)) && dependencies == None
      ensures old(dependencies).None? && sourceFiles.Some? ==>
        && r == Dependencies(sourceFiles.value, rank, source)
        && dependencies == (if r.Ok? then Some(r.value) else None)
    {
      if dependencies.Some? {
        return Ok(dependencies.value);
      }
      if sourceFiles.None? {
        return Err(NoSourceFiles(source.path));
      }
      var walk := new Resolution(sourceFiles.value);
      var out := walk.Resolve(sourceFiles.value, rank, source);
      if out.Err? {
        return Err(out.error);
      }
      var deps := out.value + WrapperList(source.wrapper);
      dependencies := Some(deps);
      return Ok(deps);
    }
  }

  /**
   * The resolution pass of `main`: every registered source, in registry
   * order, resolves its dependencies against the whole registry; the first
   * failure stops the pass.
   */
  function ResolveKeys(keys: seq<string>, reg: map<string, Source>, ghost rank: map<string, nat>)
    : (r: Result<map<string, seq<string>>, ResolveError>)
    requires Ranked(reg, rank) && forall k :: k in keys ==> k in reg
    ensures r.Ok? ==> r.value.Keys == set k | k in keys
  {
    if keys == [] then Ok(map[])
    else
      var k := keys[|keys| - 1];
      match ResolveKeys(keys[..|keys| - 1], reg, rank)
      case Err(e) => Err(e)
      case Ok(done) =>
        match Dependencies(reg, rank, reg[k])
        case Err(e) => Err(e)
        case Ok(deps) => Ok(done[k := deps])
  }

  method ResolveAll(sources: Dict<Source>, ghost rank: map<string, nat>)
    returns (r: Result<map<string, seq<string>>, ResolveError>)
    requires WellFormed(sources) && Ranked(sources.entries, rank)
    ensures r == ResolveKeys(sources.keys, sources.entries, rank)
  {
    var done: map<string, seq<string>> := map[];
    for i := 0 to |sources.keys|
      invariant ResolveKeys(sources.keys[..i], sources.entries, rank) == Ok(done)
    {
      var k := sources.keys[i];
      var file := new SourceFile(sources.entries[k]);
      var deps := file.GetDependencies(Some(sources.entries), rank);
      assert deps == Dependencies(sources.entries, rank, sources.entries[k]);
      ResolveKeysStep(sources.keys, i, sources.entries, rank);
      if deps.Err? {
        ResolveKeysErrSticks(sources.keys, i + 1, sources.entries, rank);
        return Err(deps.error);
      }
      done := done[k := deps.value];
    }
    assert sources.keys[..|sources.keys|] == sources.keys;
    return Ok(done);
  }

  lemma ResolveKeysStep(keys: seq<string>, i: nat, reg: map<string, Source>, rank: map<string, nat>)
    requires Ranked(reg, rank) && (forall k :: k in keys ==> k in reg) && i < |keys|
    ensures ResolveKeys(keys[..i + 1], reg, rank) ==
      match ResolveKeys(keys[..i], reg, rank)
      case Err(e) => Err(e)
      case Ok(done) =>
        match Dependencies(reg, rank, reg[keys[i]])
        case Err(e) => Err(e)
        case Ok(deps) => Ok(done[keys[i] := deps])
  {
    assert keys[..i + 1][..i] == keys[..i];
  }

  lemma {:induction false} ResolveKeysErrSticks(keys: seq<string>, i: nat, reg: map<string, Source>, rank: map<string, nat>)
    requires Ranked(reg, rank) && (forall k :: k in keys ==> k in reg) && i <= |keys|
    requires ResolveKeys(keys[..i], reg, rank).Err?
    ensures ResolveKeys(keys, reg, rank) == ResolveKeys(keys[..i], reg, rank)
    decreases |keys| - i
  {
    if i < |keys| {
      assert keys[..i + 1][..i] == keys[..i];
      ResolveKeysErrSticks(keys, i + 1, reg, rank);
    } else {
      assert keys[..i] == keys;
    }
  }

  /**
   * Once validation has passed on an acyclic registry, the resolution pass
   * succeeds and gives each source the list `ResolvedOrder` describes.
   */
  lemma {:induction false} AllResolved(keys: seq<string>, reg: map<string, Source>, rank: map<string, nat>)
    requires Ranked(reg, rank) && Registered(reg) && forall k :: k in keys ==> k in reg
    ensures ResolveKeys(keys, reg, rank).Ok?
    ensures forall k :: k in keys ==>
      Dependencies(reg, rank, reg[k]).Ok? && ResolveKeys(keys, reg, rank).value[k] == Dependencies(reg, rank, reg[k]).value
  {
    if keys != [] {
      var front := keys[..|keys| - 1];
      var k := keys[|keys| - 1];
      assert forall x :: x in keys <==> x in front || x == k;
      AllResolved(front, reg, rank);
      ResolvedOrder(reg, rank, reg[k]);
    }
  }
}

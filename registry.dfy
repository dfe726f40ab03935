/**
 * The module registry of the build script: header (`.svh`) and source (`.sv`)
 * files keyed by path, merged folder by folder, and the referential check run
 * before any dependency is resolved. Python dictionaries keep insertion order,
 * which decides which broken reference is reported first, so a registry is an
 * ordered dictionary here.
 */
module Registry {
  import opened Wrappers
  import Directives

  /** A `.svh` file: its path and the headers it includes (`HeaderFile`). */
  datatype Header = Header(path: string, includes: seq<string>)

  /** The parsed, never-changing part of a `.sv` file (`SourceFile` without its cache). */
  datatype Source = Source(
    path: string,
    includes: seq<string>,
    imports: seq<string>,
    wrapper: Option<string>,
    noLint: bool)

  function NewHeader(path: string, lines: seq<string>): (h: Header)
    ensures h.path == path && h.includes == Directives.Parse(lines).includes
  {
    Header(path, Directives.HeaderIncludes(lines))
  }

  function NewSource(path: string, lines: seq<string>): (s: Source)
    ensures var d := Directives.Parse(lines);
      s.path == path && s.includes == d.includes && s.imports == d.imports &&
      s.wrapper == d.wrapper && s.noLint == d.noLint
  {
    var d := Directives.Parse(lines);
    Source(path, d.includes, d.imports, d.wrapper, d.noLint)
  }

  /** An insertion-ordered dictionary keyed by path. */
  datatype Dict<V> = Dict(keys: seq<string>, entries: map<string, V>)

  predicate Distinct(s: seq<string>) {
    forall i, j :: 0 <= i < j < |s| ==> s[i] != s[j]
  }

  ghost predicate WellFormed<V>(d: Dict<V>) {
    Distinct(d.keys) && (forall k :: k in d.keys <==> k in d.entries)
  }

  /** Where `x` first occurs in `s`. */
  function IndexOf(s: seq<string>, x: string): (r: nat)
    requires x in s
    ensures r < |s| && s[r] == x && x !in s[..r]
  {
    if s[0] == x then 0
    else
      var r := 1 + IndexOf(s[1..], x);
      assert s[..r] == [s[0]] + s[1..][..r - 1];
      r
  }

  /** The keys of `keys` that `m` lacks, in order. */
  function Fresh<V>(keys: seq<string>, m: map<string, V>): (r: seq<string>)
    ensures forall k :: k in r <==> k in keys && k !in m
    ensures Distinct(keys) ==> Distinct(r)
    ensures Distinct(keys) ==>
      forall i, j :: 0 <= i < j < |r| ==> IndexOf(keys, r[i]) < IndexOf(keys, r[j])
  {
    if keys == [] then []
    else
      var init := keys[..|keys| - 1];
      var rest := Fresh(init, m);
      var k := keys[|keys| - 1];
      assert forall x :: x in keys <==> x in init || x == k;
      FreshInOrder(keys, rest);
      if k in m then rest else rest + [k]
  }

  /**
   * Keys of the front of `keys` kept in the front's order, and then the last
   * key, are in the order of `keys`.
   */
  lemma FreshInOrder(keys: seq<string>, rest: seq<string>)
    requires keys != []
    requires forall i :: 0 <= i < |rest| ==> rest[i] in keys[..|keys| - 1] && rest[i] in keys
    requires var init := keys[..|keys| - 1];
      Distinct(init) ==> forall i, j :: 0 <= i < j < |rest| ==> IndexOf(init, rest[i]) < IndexOf(init, rest[j])
    ensures Distinct(keys) ==>
      forall i, j :: 0 <= i < j < |rest| ==> IndexOf(keys, rest[i]) < IndexOf(keys, rest[j])
    ensures var r := rest + [keys[|keys| - 1]];
      Distinct(keys) ==> forall i, j :: 0 <= i < j < |r| ==> IndexOf(keys, r[i]) < IndexOf(keys, r[j])
  {
    if !Distinct(keys) {
      return;
    }
    var n := |keys| - 1;
    IndexOfFront(keys, n);
    var r := rest + [keys[n]];
    forall i, j | 0 <= i < j < |r|
      ensures IndexOf(keys, r[i]) < IndexOf(keys, r[j])
    {
      assert r[i] == rest[i] && r[i] in keys[..n];
      if j < |rest| {
        assert r[j] == rest[j] && r[j] in keys[..n];
      }
    }
  }

  /**
   * In a duplicate-free sequence, an element of the front sits where it sits
   * in the front, and the last element sits last.
   */
  lemma IndexOfFront(keys: seq<string>, n: nat)
    requires n == |keys| - 1
    ensures forall x :: x in keys[..n] ==> IndexOf(keys, x) == IndexOf(keys[..n], x) < n
    ensures Distinct(keys) ==> keys[n] !in keys[..n] && IndexOf(keys, keys[n]) == n
  {
    forall x | x in keys[..n]
      ensures IndexOf(keys, x) == IndexOf(keys[..n], x) < n
    {
      var b := IndexOf(keys[..n], x);
      assert keys[b] == x;
    }
    var c := IndexOf(keys, keys[n]);
    if Distinct(keys) && c < n {
      assert keys[c] == keys[n];
    }
  }

  /**
   * `{**d, **other}`: a key of `other` already in `d` keeps its place and
   * takes the new value; the keys of `other` that `d` lacks follow, in
   * `other`'s order.
   */
  function Update<V>(d: Dict<V>, other: Dict<V>): (r: Dict<V>)
    ensures r.entries.Keys == d.entries.Keys + other.entries.Keys
    ensures forall k :: k in other.entries ==> r.entries[k] == other.entries[k]
    ensures forall k :: k in d.entries && k !in other.entries ==> r.entries[k] == d.entries[k]
    ensures |d.keys| <= |r.keys| && r.keys[..|d.keys|] == d.keys
    ensures forall k :: k in r.keys[|d.keys|..] <==> k in other.keys && k !in d.entries
    ensures Distinct(other.keys) ==> forall i, j :: |d.keys| <= i < j < |r.keys| ==>
      r.keys[i] in other.keys && r.keys[j] in other.keys &&
      IndexOf(other.keys, r.keys[i]) < IndexOf(other.keys, r.keys[j])
  {
    var added := Fresh(other.keys, d.entries);
    var r := Dict(d.keys + added, d.entries + other.entries);
    assert r.keys[..|d.keys|] == d.keys;
    assert r.keys[|d.keys|..] == added;
    AddedInOrder(d.keys, added, other.keys);
    r
  }

  lemma AddedInOrder(front: seq<string>, added: seq<string>, keys: seq<string>)
    requires forall k :: k in added ==> k in keys
    requires Distinct(keys) ==> forall i, j :: 0 <= i < j < |added| ==> IndexOf(keys, added[i]) < IndexOf(keys, added[j])
    ensures var all := front + added;
      Distinct(keys) ==> forall i, j :: |front| <= i < j < |all| ==>
        all[i] in keys && all[j] in keys && IndexOf(keys, all[i]) < IndexOf(keys, all[j])
  {
    var all := front + added;
    if Distinct(keys) {
      forall i, j | |front| <= i < j < |all|
        ensures all[i] in keys && all[j] in keys && IndexOf(keys, all[i]) < IndexOf(keys, all[j])
      {
        assert all[i] == added[i - |front|] && all[j] == added[j - |front|];
      }
    }
  }

  lemma DistinctConcat(a: seq<string>, b: seq<string>)
    requires Distinct(a) && Distinct(b)
    requires forall x :: x in b ==> x !in a
    ensures Distinct(a + b)
  {
    forall i, j | 0 <= i < j < |a + b|
      ensures (a + b)[i] != (a + b)[j]
    {
      if i < |a| && j >= |a| {
        assert (a + b)[j] == b[j - |a|];
        assert (a + b)[j] in b;
      }
    }
  }

  lemma UpdateWellFormed<V>(d: Dict<V>, other: Dict<V>)
    requires WellFormed(d) && WellFormed(other)
    ensures WellFormed(Update(d, other))
  {
    var added := Fresh(other.keys, d.entries);
    DistinctConcat(d.keys, added);
    var r := Update(d, other);
    assert r.keys == d.keys + added;
    forall k
      ensures k in r.keys <==> k in r.entries
    {
      assert k in r.keys <==> k in d.keys || k in added;
    }
  }

  /** The registry after merging the folders in order. */
  function Merged<V>(folders: seq<Dict<V>>): Dict<V>
  {
    if folders == [] then Dict([], map[])
    else Update(Merged(folders[..|folders| - 1]), folders[|folders| - 1])
  }

  /** The merge loop of `main` for one kind of file. */
  method MergeFolders<V>(folders: seq<Dict<V>>) returns (r: Dict<V>)
    ensures r == Merged(folders)
  {
    r := Dict([], map[]);
    for i := 0 to |folders|
      invariant r == Merged(folders[..i])
    {
      assert folders[..i + 1][..i] == folders[..i];
      r := Update(r, folders[i]);
    }
    assert folders[..|folders|] == folders;
  }

  /** A well-formed set of folders merges into a well-formed registry. */
  lemma {:induction false} MergedWellFormed<V>(folders: seq<Dict<V>>)
    requires forall i :: 0 <= i < |folders| ==> WellFormed(folders[i])
    ensures WellFormed(Merged(folders))
  {
    if folders != [] {
      MergedWellFormed(folders[..|folders| - 1]);
      UpdateWellFormed(Merged(folders[..|folders| - 1]), folders[|folders| - 1]);
    }
  }

  /** The merged registry holds exactly the paths found in some folder. */
  lemma {:induction false} MergedKeys<V>(folders: seq<Dict<V>>, p: string)
    ensures p in Merged(folders).entries <==> exists j :: 0 <= j < |folders| && p in folders[j].entries
  {
    if folders != [] {
      var n := |folders| - 1;
      var prefix := folders[..n];
      MergedKeys(prefix, p);
      MergedHas(folders, p);
      FoundBeforeOrLast(folders, p);
    }
  }

  /** A path is in some folder when it is in one of the front folders or in the last. */
  lemma FoundBeforeOrLast<V>(folders: seq<Dict<V>>, p: string)
    requires folders != []
    ensures var prefix := folders[..|folders| - 1];
      (exists j :: 0 <= j < |folders| && p in folders[j].entries) <==>
      (exists j :: 0 <= j < |prefix| && p in prefix[j].entries) || p in folders[|folders| - 1].entries
  {
    var n := |folders| - 1;
    var prefix := folders[..n];
    if j :| 0 <= j < |folders| && p in folders[j].entries {
      if j < n {
        assert p in prefix[j].entries;
      }
    }
    if j :| 0 <= j < |prefix| && p in prefix[j].entries {
      assert p in folders[j].entries;
    }
  }

  /** A path is merged when it was merged before the last folder or is in the last folder. */
  lemma MergedHas<V>(folders: seq<Dict<V>>, p: string)
    requires folders != []
    ensures p in Merged(folders).entries <==>
      p in Merged(folders[..|folders| - 1]).entries || p in folders[|folders| - 1].entries
  {
  }

  /** A path found in several folders takes the entry of the last of them. */
  lemma {:induction false} MergedLaterWins<V>(folders: seq<Dict<V>>, j: nat, p: string)
    requires j < |folders| && p in folders[j].entries
    requires forall k :: j < k < |folders| ==> p !in folders[k].entries
    ensures p in Merged(folders).entries && Merged(folders).entries[p] == folders[j].entries[p]
  {
    var n := |folders| - 1;
    if j < n {
      assert forall k :: j < k < n ==> folders[..n][k] == folders[k];
      assert folders[..n][j] == folders[j];
      MergedLaterWins(folders[..n], j, p);
    }
  }

  // Referential check (the verification loop of `main`).

  datatype RegistryError =
    | MissingInclude(path: string, missing: string)
    | MissingImport(path: string, missing: string)

  /** The first reference of `refs` that `known` lacks. */
  function FirstMissing(refs: seq<string>, known: set<string>): (r: Option<string>)
    ensures r.None? <==> forall x :: x in refs ==> x in known
    ensures r.Some? ==> r.value in refs && r.value !in known
  {
    if refs == [] then None
    else if refs[0] !in known then
      assert refs[0] == refs[0];
      Some(refs[0])
    else
      var r := FirstMissing(refs[1..], known);
      assert forall x :: x in refs <==> x == refs[0] || x in refs[1..];
      r
  }

  /**
   * What is wrong with the source registered at `path`: its first include that
   * is not a header, failing that its first import that is not a source. A
   * header's own includes are never looked at, only the header keys.
   */
  function Violation(path: string, s: Source, headerKeys: set<string>, sourceKeys: set<string>): (r: Option<RegistryError>)
    ensures r.None? <==> (forall x :: x in s.includes ==> x in headerKeys) &&
                         (forall x :: x in s.imports ==> x in sourceKeys)
    ensures r.Some? ==> r.value.path == path
    ensures r.Some? && r.value.MissingInclude? ==>
      r.value.missing in s.includes && r.value.missing !in headerKeys
    ensures r.Some? && r.value.MissingImport? ==>
      r.value.missing in s.imports && r.value.missing !in sourceKeys &&
      forall x :: x in s.includes ==> x in headerKeys
  {
    match FirstMissing(s.includes, headerKeys)
    case Some(x) => Some(MissingInclude(path, x))
    case None =>
      match FirstMissing(s.imports, sourceKeys)
      case Some(x) => Some(MissingImport(path, x))
      case None => None
  }

  function ViolationAt(headers: Dict<Header>, sources: Dict<Source>, path: string): Option<RegistryError>
    requires path in sources.entries
  {
    Violation(path, sources.entries[path], headers.entries.Keys, sources.entries.Keys)
  }

  /** Every include of every source names a header, every import a source. */
  ghost predicate Consistent(headers: Dict<Header>, sources: Dict<Source>) {
    forall p :: p in sources.entries ==> ViolationAt(headers, sources, p).None?
  }

  /**
   * The verification loop: sources in registry order, each one's includes
   * before its imports; the first broken reference is the error.
   */
  method Validate(headers: Dict<Header>, sources: Dict<Source>) returns (r: Result<(), RegistryError>)
    requires WellFormed(sources)
    ensures r.Ok? <==> Consistent(headers, sources)
    ensures r.Err? ==> exists i :: (0 <= i < |sources.keys| &&
      ViolationAt(headers, sources, sources.keys[i]) == Some(r.error) &&
      forall k :: 0 <= k < i ==> ViolationAt(headers, sources, sources.keys[k]).None?)
  {
    var headerKeys := headers.entries.Keys;
    var sourceKeys := sources.entries.Keys;
    for i := 0 to |sources.keys|
      invariant forall k :: 0 <= k < i ==> ViolationAt(headers, sources, sources.keys[k]).None?
    {
      var path := sources.keys[i];
      var source := sources.entries[path];
      for j := 0 to |source.includes|
        invariant forall k :: 0 <= k < j ==> source.includes[k] in headerKeys
      {
        if source.includes[j] !in headerKeys {
          r := Err(MissingInclude(path, source.includes[j]));
          FirstMissingAt(source.includes, headerKeys, j);
          assert ViolationAt(headers, sources, path) == Some(r.error);
          return;
        }
      }
      assert FirstMissing(source.includes, headerKeys).None?;
      for j := 0 to |source.imports|
        invariant forall k :: 0 <= k < j ==> source.imports[k] in sourceKeys
      {
        if source.imports[j] !in sourceKeys {
          r := Err(MissingImport(path, source.imports[j]));
          FirstMissingAt(source.imports, sourceKeys, j);
          assert ViolationAt(headers, sources, path) == Some(r.error);
          return;
        }
      }
      assert FirstMissing(source.imports, sourceKeys).None?;
    }
    r := Ok(());
    forall p | p in sources.entries
      ensures ViolationAt(headers, sources, p).None?
    {
      var k :| 0 <= k < |sources.keys| && sources.keys[k] == p;
    }
  }

  /** The reported reference is the first missing one: every one before it is known. */
  lemma {:induction false} FirstMissingAt(refs: seq<string>, known: set<string>, j: nat)
    requires j < |refs| && refs[j] !in known
    requires forall k :: 0 <= k < j ==> refs[k] in known
    ensures FirstMissing(refs, known) == Some(refs[j])
  {
    if j > 0 {
      assert forall k :: 0 <= k < j - 1 ==> refs[1..][k] == refs[k + 1];
      FirstMissingAt(refs[1..], known, j - 1);
    }
  }

  /** `lint_only=path not in top_level`: every source but a top-level one is only linted. */
  predicate LintOnly(path: string, topLevel: seq<string>) {
    path !in topLevel
  }

  /**
   * The program `main` picks for a source before verilation: a top-level
   * module is verilated with the first compiled program in insertion order
   * (`next(iter(compiled_programs.items()))`), any other gets none.
   */
  function ProgramFor<P>(path: string, topLevel: seq<string>, compiled: Dict<P>): (r: Option<P>)
    requires WellFormed(compiled)
    ensures r.Some? <==> path in topLevel && |compiled.entries| > 0
    ensures r.Some? ==> r.value == compiled.entries[compiled.keys[0]]
  {
    NonEmptyKeys(compiled);
    if path in topLevel && |compiled.keys| > 0 then Some(compiled.entries[compiled.keys[0]]) else None
  }

  /** A well-formed dictionary has entries exactly when it has keys. */
  lemma NonEmptyKeys<V>(d: Dict<V>)
    requires WellFormed(d)
    ensures |d.entries| > 0 <==> |d.keys| > 0
    ensures |d.keys| > 0 ==> d.keys[0] in d.entries
  {
    if |d.keys| > 0 {
      assert d.keys[0] in d.keys;
    }
  }

  /**
   * A program goes only to a source that is verilated rather than linted,
   * and it is one of the compiled programs; every verilated source gets one
   * as soon as any program is compiled.
   */
  lemma ProgramOnlyWhenVerilated<P>(path: string, topLevel: seq<string>, compiled: Dict<P>)
    requires WellFormed(compiled)
    ensures LintOnly(path, topLevel) ==> ProgramFor(path, topLevel, compiled).None?
    ensures !LintOnly(path, topLevel) && compiled.entries != map[] ==> ProgramFor(path, topLevel, compiled).Some?
    ensures ProgramFor(path, topLevel, compiled).Some? ==>
      ProgramFor(path, topLevel, compiled).value in compiled.entries.Values
  {
    if !LintOnly(path, topLevel) && compiled.entries != map[] {
      var k :| k in compiled.entries;
    }
  }
}

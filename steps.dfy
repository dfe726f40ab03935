/**
 * The build statements the emitters hand to the ninja writer, kept as
 * records instead of ninja text.
 */
module Steps {
  import opened Wrappers

  /**
   * One `build` statement: its outputs, its rule, its explicit and implicit
   * inputs and its per-statement variables in the order they are written.
   */
  datatype Step = Step(
    outputs: seq<string>,
    rule: string,
    inputs: seq<string>,
    implicit: seq<string>,
    variables: seq<(string, string)>)

  /** The ninja writer leaves out a variable whose value is `None`. */
  function OptionalVariable(key: string, value: Option<string>): seq<(string, string)>
  {
    match value
    case None => []
    case Some(v) => [(key, v)]
  }

  /** Python's `f"{x}"` for an optional string: the text itself, or `"None"`. */
  function Formatted(value: Option<string>): string
  {
    match value
    case None => "None"
    case Some(v) => v
  }

  /** A single step as a run of steps. */
  function AsSteps<E>(step: Result<Step, E>): (r: Result<seq<Step>, E>)
    ensures step.Err? ==> r == Err(step.error)
    ensures step.Ok? ==> r == Ok([step.value])
  {
    match step
    case Err(e) => Err(e)
    case Ok(s) => Ok([s])
  }

  /** Steps so far followed by more steps; the first error stops the run. */
  function Extend<E>(prior: Result<seq<Step>, E>, more: Result<seq<Step>, E>)
    : (r: Result<seq<Step>, E>)
    ensures prior.Err? ==> r == prior
    ensures prior.Ok? && more.Err? ==> r == more
    ensures r.Ok? <==> prior.Ok? && more.Ok?
    ensures r.Ok? ==> r.value == prior.value + more.value
  {
    match prior
    case Err(e) => Err(e)
    case Ok(steps) =>
      match more
      case Err(e) => Err(e)
      case Ok(m) => Ok(steps + m)
  }

  lemma ExtendAssociative<E>(x: Result<seq<Step>, E>, y: Result<seq<Step>, E>, z: Result<seq<Step>, E>)
    ensures Extend(Extend(x, y), z) == Extend(x, Extend(y, z))
  {
    if x.Ok? && y.Ok? && z.Ok? {
      assert x.value + y.value + z.value == x.value + (y.value + z.value);
    }
  }

  /** A run of single steps, in order; the first error stops the run. */
  function Sequence<E>(results: seq<Result<Step, E>>): (r: Result<seq<Step>, E>)
    ensures r.Ok? ==> |r.value| == |results|
  {
    if results == [] then Ok([])
    else Extend(Sequence(results[..|results| - 1]), AsSteps(results[|results| - 1]))
  }

  /** When the run succeeds, its k-th step is the k-th result. */
  lemma {:induction false} SequenceAt<E>(results: seq<Result<Step, E>>, k: nat)
    requires k < |results| && Sequence(results).Ok?
    ensures results[k].Ok? && Sequence(results).value[k] == results[k].value
    decreases |results|
  {
    var n := |results| - 1;
    var init := results[..n];
    assert Sequence(results) == Extend(Sequence(init), AsSteps(results[n]));
    if k < n {
      SequenceAt(init, k);
      assert init[k] == results[k];
    }
  }

  /** A run that fails has a result that failed. */
  lemma {:induction false} SequenceFails<E>(results: seq<Result<Step, E>>) returns (k: nat)
    requires Sequence(results).Err?
    ensures k < |results| && results[k].Err?
    decreases |results|
  {
    var n := |results| - 1;
    var init := results[..n];
    assert Sequence(results) == Extend(Sequence(init), AsSteps(results[n]));
    if Sequence(init).Ok? {
      k := n;
    } else {
      k := SequenceFails(init);
      assert init[k] == results[k];
    }
  }

  /** Runs of steps one after another; the first error stops them. */
  function Chain<E>(runs: seq<Result<seq<Step>, E>>): (r: Result<seq<Step>, E>)
  {
    if runs == [] then Ok([])
    else Extend(Chain(runs[..|runs| - 1]), runs[|runs| - 1])
  }

  /**
   * When the runs all succeed, the j-th run's steps follow right after those
   * of the runs before it.
   */
  lemma {:induction false} ChainAt<E>(runs: seq<Result<seq<Step>, E>>, j: nat)
    requires j < |runs| && Chain(runs).Ok?
    ensures Chain(runs[..j]).Ok? && runs[j].Ok?
    ensures var at := |Chain(runs[..j]).value|;
      && at + |runs[j].value| <= |Chain(runs).value|
      && Chain(runs).value[at..at + |runs[j].value|] == runs[j].value
    decreases |runs|
  {
    var n := |runs| - 1;
    var init := runs[..n];
    assert Chain(runs) == Extend(Chain(init), runs[n]);
    var whole := Chain(runs).value;
    assert whole == Chain(init).value + runs[n].value;
    if j < n {
      ChainAt(init, j);
      assert init[..j] == runs[..j] && init[j] == runs[j];
      var at := |Chain(runs[..j]).value|;
      assert whole[at..at + |runs[j].value|] == Chain(init).value[at..at + |runs[j].value|];
    } else {
      assert init == runs[..j];
      assert whole[|Chain(init).value|..] == runs[n].value;
    }
  }

  /** `ChainAt` with the runs before `j`, run `j` and the length of the chained front named by the caller. */
  lemma ChainRun<E>(runs: seq<Result<seq<Step>, E>>, j: nat, front: seq<Result<seq<Step>, E>>,
                    run: Result<seq<Step>, E>, at: nat)
    requires j < |runs| && Chain(runs).Ok?
    requires runs[..j] == front && runs[j] == run
    requires Chain(front).Ok? ==> |Chain(front).value| == at
    ensures run.Ok? && at + |run.value| <= |Chain(runs).value|
    ensures Chain(runs).value[at..at + |run.value|] == run.value
  {
    ChainAt(runs, j);
  }

  /** When the runs all succeed, the i-th step of the j-th run sits i steps after that run's start. */
  lemma ChainElement<E>(runs: seq<Result<seq<Step>, E>>, j: nat, at: nat, i: nat)
    requires j < |runs| && Chain(runs).Ok?
    requires Chain(runs[..j]).Ok? && at == |Chain(runs[..j]).value|
    requires runs[j].Ok? && i < |runs[j].value|
    ensures at + i < |Chain(runs).value| && Chain(runs).value[at + i] == runs[j].value[i]
  {
    ChainAt(runs, j);
    assert Chain(runs).value[at..at + |runs[j].value|][i] == runs[j].value[i];
  }

  /** One more result at the end of a run. */
  lemma SequenceSnoc<E>(results: seq<Result<Step, E>>, x: Result<Step, E>)
    ensures Sequence(results + [x]) == Extend(Sequence(results), AsSteps(x))
  {
    assert (results + [x])[..|results|] == results;
  }

  /** The run of the first k + 1 results extends the run of the first k. */
  lemma SequencePrefixStep<E>(results: seq<Result<Step, E>>, k: nat)
    requires k < |results|
    ensures Sequence(results[..k + 1]) == Extend(Sequence(results[..k]), AsSteps(results[k]))
  {
    assert results[..k + 1][..k] == results[..k];
  }

  /** Once a run has failed, later results leave the error as it is. */
  lemma {:induction false} SequenceErrSticks<E>(results: seq<Result<Step, E>>, n: nat)
    requires n <= |results| && Sequence(results[..n]).Err?
    ensures Sequence(results) == Sequence(results[..n])
    decreases |results| - n
  {
    if n < |results| {
      assert results[..n + 1] == results[..n] + [results[n]];
      SequenceSnoc(results[..n], results[n]);
      SequenceErrSticks(results, n + 1);
    } else {
      assert results[..n] == results;
    }
  }

  /** One more run at the end. */
  lemma ChainSnoc<E>(runs: seq<Result<seq<Step>, E>>, x: Result<seq<Step>, E>)
    ensures Chain(runs + [x]) == Extend(Chain(runs), x)
  {
    assert (runs + [x])[..|runs|] == runs;
  }

  /** Once the runs have failed, later runs leave the error as it is. */
  lemma {:induction false} ChainErrSticks<E>(runs: seq<Result<seq<Step>, E>>, n: nat)
    requires n <= |runs| && Chain(runs[..n]).Err?
    ensures Chain(runs) == Chain(runs[..n])
    decreases |runs| - n
  {
    if n < |runs| {
      assert runs[..n + 1] == runs[..n] + [runs[n]];
      ChainSnoc(runs[..n], runs[n]);
      ChainErrSticks(runs, n + 1);
    } else {
      assert runs[..n] == runs;
    }
  }

  /** Two lists of runs one after the other chain to the first's steps, then the second's. */
  lemma {:induction false} ChainAppend<E>(a: seq<Result<seq<Step>, E>>, b: seq<Result<seq<Step>, E>>)
    ensures Chain(a + b) == Extend(Chain(a), Chain(b))
    decreases |b|
  {
    if b == [] {
      assert a + b == a;
      var x := Chain(a);
      assert x.Ok? ==> x.value + [] == x.value;
    } else {
      var b' := b[..|b| - 1];
      var x := b[|b| - 1];
      assert a + b == (a + b') + [x];
      assert b == b' + [x];
      ChainSnoc(a + b', x);
      ChainSnoc(b', x);
      ChainAppend(a, b');
      ExtendAssociative(Chain(a), Chain(b'), x);
    }
  }

  /** The first output of every step, in order. */
  function Outputs(steps: seq<Step>): (r: seq<string>)
    ensures |r| == |steps|
  {
    if steps == [] then []
    else
      var last := steps[|steps| - 1];
      Outputs(steps[..|steps| - 1]) + [if last.outputs == [] then "" else last.outputs[0]]
  }

  /** One more step adds its first output. */
  lemma OutputsSnoc(steps: seq<Step>, step: Step)
    requires step.outputs != []
    ensures Outputs(steps + [step]) == Outputs(steps) + [step.outputs[0]]
  {
    assert (steps + [step])[..|steps|] == steps;
  }

  lemma {:induction false} OutputsAppend(a: seq<Step>, b: seq<Step>)
    ensures Outputs(a + b) == Outputs(a) + Outputs(b)
    decreases |b|
  {
    if b == [] {
      assert a + b == a;
    } else {
      var b' := b[..|b| - 1];
      assert (a + b)[..|a + b| - 1] == a + b';
      OutputsAppend(a, b');
    }
  }
}

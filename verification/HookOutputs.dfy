/** Combining the outputs of batches (run.rs) and of per-file checks (hooks/mod.rs). */
module HookOutputs {
  import opened Wrappers
  import opened Buffered
  import opened Bits

  /** An `i32` exit status, as the number its bits write. */
  type Status = nat

  datatype FileChanges = Unchanged | Modified | Unknown

  datatype Output = Output(status: Status, output: seq<byte>, changes: FileChanges)

  const EMPTY := Output(0, [], Unchanged)

  function Merge(a: Output, b: Output): Output {
    Output(Or(a.status, b.status), a.output + b.output, if b.changes == Modified then Modified else a.changes)
  }

  /** The combined result, updated in place while the stream is drained. */
  class Combined {
    var status: Status
    var output: seq<byte>
    var changes: FileChanges

    constructor ()
      ensures Value() == EMPTY
    {
      status, output, changes := 0, [], Unchanged;
    }

    function Value(): Output
      reads this
    {
      Output(status, output, changes)
    }

    /** `merge_known`; `HookRunOutput::append` is the same without `changes`. */
    method MergeKnown(other: Output)
      requires changes != Unknown && other.changes != Unknown
      modifies this
      ensures Value() == Merge(old(Value()), other)
      ensures changes != Unknown
    {
      status := Or(status, other.status);
      output := output + other.output;
      if other.changes == Modified {
        changes := Modified;
      }
    }
  }

  predicate Known<E>(results: seq<Result<Output, E>>) {
    forall i | 0 <= i < |results| && results[i].Ok? :: results[i].value.changes != Unknown
  }

  /** The loop of `run_concurrent_file_checks` over the results the stream hands out. */
  method FoldInOrder<E>(results: seq<Result<Output, E>>) returns (r: Result<Output, E>)
    requires Known(results)
    ensures r == Sequential(EMPTY, results, Merge)
  {
    var result := new Combined();
    for i := 0 to |results|
      invariant fresh(result) && result.changes != Unknown
      invariant Sequential(EMPTY, results[..i], Merge) == Ok(result.Value())
    {
      assert results[..i + 1][..i] == results[..i];
      match results[i]
      case Ok(output) =>
        result.MergeKnown(output);
      case Err(e) =>
        SequentialStops(EMPTY, results, Merge, i);
        return Err(e);
    }
    assert results[..|results|] == results;
    return Ok(result.Value());
  }

  // ---- what the combined result says ----

  function Outputs<E>(results: seq<Result<Output, E>>): seq<byte>
    requires forall i | 0 <= i < |results| :: results[i].Ok?
  {
    if results == [] then [] else Outputs(results[..|results| - 1]) + results[|results| - 1].value.output
  }

  /** The status has a bit exactly when some item's has. */
  ghost predicate StatusIsUnion<E>(status: Status, results: seq<Result<Output, E>>) {
    forall n :: Bit(status, n) <==> exists i | 0 <= i < |results| && results[i].Ok? :: Bit(results[i].value.status, n)
  }

  lemma UnionSnoc<E>(status: Status, init: seq<Result<Output, E>>, last: Result<Output, E>)
    requires last.Ok? && StatusIsUnion(status, init)
    ensures StatusIsUnion(Or(status, last.value.status), init + [last])
  {
    var results := init + [last];
    forall n: nat
      ensures Bit(Or(status, last.value.status), n)
         <==> exists i | 0 <= i < |results| && results[i].Ok? :: Bit(results[i].value.status, n)
    {
      OrBit(status, last.value.status, n);
      assert forall i | 0 <= i < |init| :: results[i] == init[i];
      assert results[|init|] == last;
    }
  }

  /** So the status is zero exactly when every item's is. */
  lemma ZeroStatusIff<E>(status: Status, results: seq<Result<Output, E>>)
    requires StatusIsUnion(status, results)
    ensures status == 0 <==> forall i | 0 <= i < |results| && results[i].Ok? :: results[i].value.status == 0
  {
    forall n: nat
      ensures !Bit(0, n)
    {
      ZeroBit(n);
    }
    if status != 0 {
      LowestIsSet(status);
    }
    if i :| 0 <= i < |results| && results[i].Ok? && results[i].value.status != 0 {
      LowestIsSet(results[i].value.status);
      assert Bit(status, TrailingZeros(results[i].value.status));
    }
  }

  /**
    All items succeed: outputs in input order, the bits of the statuses together, modified exactly when
    some item modified files.
   */
  lemma {:induction false} CombinedSuccess<E>(results: seq<Result<Output, E>>)
    requires forall i | 0 <= i < |results| :: results[i].Ok?
    ensures var r := Sequential(EMPTY, results, Merge);
      && r.Ok?
      && r.value.output == Outputs(results)
      && StatusIsUnion(r.value.status, results)
      && (r.value.changes == Modified <==> exists i | 0 <= i < |results| :: results[i].value.changes == Modified)
      && r.value.changes != Unknown
  {
    if results == [] {
      forall n: nat
        ensures !Bit(0, n)
      {
        ZeroBit(n);
      }
    } else {
      var init, last := results[..|results| - 1], results[|results| - 1];
      CombinedSuccess(init);
      assert forall i | 0 <= i < |init| :: init[i] == results[i];
      UnionSnoc(Sequential(EMPTY, init, Merge).value.status, init, last);
      assert results == init + [last];
    }
  }

  /** Some item fails: the error is that of the earliest failing one. */
  lemma CombinedFailure<E>(results: seq<Result<Output, E>>, k: nat)
    requires k < |results| && results[k].Err? && forall i | 0 <= i < k :: results[i].Ok?
    ensures Sequential(EMPTY, results, Merge) == Err(results[k].error)
  {
    CombinedSuccess(results[..k]);
    SequentialStops(EMPTY, results, Merge, k);
  }

  /** The same for every completion order of the bounded window. */
  lemma AnyOrderSameOutput<E>(schedule: seq<Action>, results: seq<Result<Output, E>>, concurrency: nat)
    requires Legal(schedule, EMPTY, results, Merge, concurrency)
    requires Final(Execute(schedule, EMPTY, results, Merge), results)
    requires forall i | 0 <= i < |results| :: results[i].Ok?
    ensures var r := Answer(Execute(schedule, EMPTY, results, Merge));
      && r.Ok?
      && r.value.output == Outputs(results)
      && StatusIsUnion(r.value.status, results)
  {
    AnyScheduleIsSequential(schedule, EMPTY, results, Merge, concurrency);
    CombinedSuccess(results);
  }
}

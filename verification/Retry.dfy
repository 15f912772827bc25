/** The in-window retry wrapper around one block dispatch. */
module Retry {
  import opened Common
  import opened Errors

  datatype BlockResult = BlockResult(
    timings: seq<real>, failedReason: Option<string>, metadata: seq<map<string, string>>)

  /** How one dispatch ends: it returns, or an exception escapes it. */
  datatype Outcome = Returned(result: BlockResult) | Raised(exn: Exn)

  const TRANSIENT_FAILURE_REASONS: seq<string> := [
    "grpc_unavailable", "grpc_deadline_exceeded", "grpc_resource_exhausted", "grpc_internal",
    "asyncio_timeout", "rest_transient", "single_rpc_engine_oom"
  ]

  predicate TransientReason(r: BlockResult) {
    r.failedReason.Some? && r.failedReason.value in TRANSIENT_FAILURE_REASONS
  }

  /** An escaped exception becomes a failed row; a returned result stands as it is. */
  function Settle(o: Outcome): BlockResult {
    match o
    case Returned(r) => r
    case Raised(e) => BlockResult([], Some(ClassifyException(e)), [])
  }

  /** The block's row: the result, whether it was retried, and how many dispatches it took. */
  datatype Row = Row(result: BlockResult, retryAttempted: bool, dispatches: nat)

  /** Dispatches the wrapper makes when the i-th dispatch ends with `outcomes(i)`. */
  ghost function Dispatches(outcomes: nat -> Outcome, isTransient: Exn -> bool): (d: nat)
    ensures 1 <= d <= 3
    ensures d == 3 <==>
      && outcomes(0).Raised? && isTransient(outcomes(0).exn)
      && outcomes(1).Returned? && TransientReason(outcomes(1).result)
    ensures d == 1 <==>
      if outcomes(0).Raised? then !isTransient(outcomes(0).exn) else !TransientReason(outcomes(0).result)
  {
    match outcomes(0)
    case Returned(r) => if TransientReason(r) then 2 else 1
    case Raised(e) =>
      if !isTransient(e) then 1
      else if outcomes(1).Returned? && TransientReason(outcomes(1).result) then 3 else 2
  }

  /** The wrapper's row is what its last dispatch came to. */
  ghost function RowOf(outcomes: nat -> Outcome, isTransient: Exn -> bool): Row {
    var d := Dispatches(outcomes, isTransient);
    Row(Settle(outcomes(d - 1)), d >= 2, d)
  }

  /** `run_block_with_retry`. It never raises: every path returns a row. The `outcomes` are whatever
      the stateful dispatcher does on its first, second and third call. */
  method RunBlockWithRetry(outcomes: nat -> Outcome, isTransient: Exn -> bool) returns (row: Row)
    ensures row == RowOf(outcomes, isTransient)
  {
    var retryAttempted := false;
    var count := 1;
    var attempt := outcomes(0);
    if attempt.Raised? {
      if !isTransient(attempt.exn) {
        return Row(BlockResult([], Some(ClassifyException(attempt.exn)), []), retryAttempted, count);
      }
      retryAttempted := true;
      count := count + 1;
      attempt := outcomes(1);
      if attempt.Raised? {
        return Row(BlockResult([], Some(ClassifyException(attempt.exn)), []), retryAttempted, count);
      }
    }
    var result := attempt.result;
    if result.failedReason.Some? && result.failedReason.value in TRANSIENT_FAILURE_REASONS {
      retryAttempted := true;
      attempt := outcomes(count);
      count := count + 1;
      if attempt.Raised? {
        return Row(BlockResult([], Some(ClassifyException(attempt.exn)), []), retryAttempted, count);
      }
      result := attempt.result;
    }
    return Row(result, retryAttempted, count);
  }

  /** What a caller may rely on for any dispatcher behaviour: one to three dispatches, the retry flag
      set exactly when there were at least two, the row taken from the last one, and a transient
      failure left standing only if it was retried. */
  lemma RowGuarantees(outcomes: nat -> Outcome, isTransient: Exn -> bool)
    ensures var row := RowOf(outcomes, isTransient);
      && 1 <= row.dispatches <= 3
      && (row.retryAttempted <==> row.dispatches >= 2)
      && row.result == Settle(outcomes(row.dispatches - 1))
      && (outcomes(row.dispatches - 1).Raised? ==> row.result.failedReason.Some? && row.result.timings == [])
      && (outcomes(row.dispatches - 1).Raised? ==>
            row.result == BlockResult([], Some(ClassifyException(outcomes(row.dispatches - 1).exn)), []))
      && (outcomes(row.dispatches - 1).Returned? ==> row.result == outcomes(row.dispatches - 1).result)
      && (outcomes(row.dispatches - 1).Returned? && TransientReason(row.result) ==> row.retryAttempted)
  {
  }
}

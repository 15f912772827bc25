/** The retry wrapper over the recovering dispatcher: what a sweep sees of a dying endpoint. */
module BlockDispatch {
  import opened Common
  import opened Errors
  import opened Retry
  import opened Recovery

  predicate Succeeded(r: RpcResult) {
    r.Answer? && r.success && r.wallMs.Some?
  }

  /** The label of one RPC that did not succeed. */
  function ReasonOf(r: RpcResult): string {
    match r
    case Failed(e) => ClassifyDispatcherExn(e)
    case Answer(_, _, reason, _) =>
      if reason.Some? && reason.value != "" then reason.value else "unknown_failure"
  }

  function Timings(results: seq<RpcResult>): seq<real> {
    if results == [] then []
    else
      var last := results[|results| - 1];
      Timings(results[..|results| - 1]) + (if Succeeded(last) then [last.wallMs.value] else [])
  }

  function Payloads(results: seq<RpcResult>): seq<map<string, string>> {
    if results == [] then []
    else
      var last := results[|results| - 1];
      Payloads(results[..|results| - 1]) + (if Succeeded(last) && last.metadata != map[] then [last.metadata] else [])
  }

  /** A block fails only when no RPC succeeded, and then for its first slot's reason. */
  function Aggregated(results: seq<RpcResult>): BlockResult {
    if Timings(results) != [] then BlockResult(Timings(results), None, Payloads(results))
    else if results == [] || ReasonOf(results[0]) == "" then BlockResult([], Some("no_successful_rpcs"), [])
    else BlockResult([], Some(ReasonOf(results[0])), [])
  }

  predicate CarriesPayload(r: RpcResult) {
    Succeeded(r) && r.metadata != map[]
  }

  /** What a block's result says of its slots: a timing for every success and a payload for every success
      that has one, in slot order; or, without a success, the reason of slot 0. */
  ghost predicate Summarises(block: BlockResult, results: seq<RpcResult>) {
    var wins, loads := Where(Succeeded, results), Where(CarriesPayload, results);
    && |block.timings| == |wins| && |block.metadata| == |loads|
    && (forall c :: 0 <= c < |wins| ==> wins[c] < |results| && TimedAs(results[wins[c]], block.timings[c]))
    && (forall c :: 0 <= c < |loads| ==> loads[c] < |results| && LoadedAs(results[loads[c]], block.metadata[c]))
    && (wins != [] <==> block.failedReason == None)
    && (wins == [] && results != [] && ReasonOf(results[0]) != "" ==> block.failedReason == Some(ReasonOf(results[0])))
    && (results == [] ==> block.failedReason == Some("no_successful_rpcs"))
  }

  predicate TimedAs(r: RpcResult, timing: real) {
    r.Answer? && r.wallMs == Some(timing)
  }

  predicate LoadedAs(r: RpcResult, payload: map<string, string>) {
    r.Answer? && r.metadata == payload
  }

  lemma {:induction false} TimingsInOrder(results: seq<RpcResult>)
    ensures var w, t := Where(Succeeded, results), Timings(results);
      |t| == |w| && forall c :: 0 <= c < |w| ==> w[c] < |results| && TimedAs(results[w[c]], t[c])
  {
    if results != [] {
      var front := results[..|results| - 1];
      TimingsInOrder(front);
      var w := Where(Succeeded, front);
      forall c | 0 <= c < |w| ensures results[w[c]] == front[w[c]] {
      }
    }
  }

  lemma {:induction false} PayloadsInOrder(results: seq<RpcResult>)
    ensures var w, p := Where(CarriesPayload, results), Payloads(results);
      |p| == |w| && forall c :: 0 <= c < |w| ==> w[c] < |results| && LoadedAs(results[w[c]], p[c])
  {
    if results != [] {
      var front := results[..|results| - 1];
      PayloadsInOrder(front);
      var w := Where(CarriesPayload, front);
      forall c | 0 <= c < |w| ensures results[w[c]] == front[w[c]] {
      }
    }
  }

  lemma AggregatedSummarises(results: seq<RpcResult>)
    ensures Summarises(Aggregated(results), results)
  {
    TimingsInOrder(results);
    PayloadsInOrder(results);
    PayloadsNeedSuccess(results);
    hide Where, ReasonOf, Succeeded, Payloads;
  }

  lemma {:induction false} PayloadsNeedSuccess(results: seq<RpcResult>)
    ensures Where(Succeeded, results) == [] ==> Where(CarriesPayload, results) == [] && Payloads(results) == []
  {
    if results != [] {
      PayloadsNeedSuccess(results[..|results| - 1]);
    }
  }

  /** What the label of an RPC that did not succeed says: the class or status of an exception, the reason of
      an answer if it gives one. */
  lemma ReasonExactly(r: RpcResult)
    ensures r.Failed? && r.exn.kind.GrpcRpc? && r.exn.kind.code.Some? ==> ReasonOf(r) == "grpc_" + CodeName(r.exn.kind.code.value)
    ensures r.Failed? && r.exn.kind.Plain? ==> ReasonOf(r) == Lower(r.exn.name)
    ensures r.Failed? && r.exn.kind.HttpxTimeout? ==> ReasonOf(r) == "httpx_timeout"
    ensures r.Failed? && r.exn.kind in {HttpxConnect, HttpxRead, HttpxTransport, HttpxOther} ==>
      ReasonOf(r) == "httpx_" + Lower(r.exn.name)
    ensures r.Answer? && r.failureReason.Some? && r.failureReason.value != "" ==> ReasonOf(r) == r.failureReason.value
    ensures r.Answer? ==> ReasonOf(r) != ""
  {
  }

  /** The dispatcher's aggregation loop. */
  method Aggregate(results: seq<RpcResult>) returns (block: BlockResult)
    ensures block == Aggregated(results)
    ensures Summarises(block, results)
  {
    AggregatedSummarises(results);
    hide Summarises;
    var timings: seq<real> := [];
    var metadata: seq<map<string, string>> := [];
    var firstFailure: Option<string> := None;
    for i := 0 to |results|
      invariant timings == Timings(results[..i]) && metadata == Payloads(results[..i])
      invariant timings == [] ==> firstFailure == if i == 0 then None else Some(ReasonOf(results[0]))
    {
      assert results[..i + 1][..i] == results[..i];
      var r := results[i];
      if r.Failed? {
        if firstFailure == None {
          firstFailure := Some(ClassifyDispatcherExn(r.exn));
        }
      } else if r.success && r.wallMs.Some? {
        timings := timings + [r.wallMs.value];
        if r.metadata != map[] {
          metadata := metadata + [r.metadata];
        }
      } else if firstFailure == None {
        firstFailure := Some(ReasonOf(r));
      }
    }
    assert results[..|results|] == results;
    if timings == [] {
      var reason := if firstFailure.Some? && firstFailure.value != "" then firstFailure.value else "no_successful_rpcs";
      return BlockResult([], Some(reason), []);
    }
    return BlockResult(timings, None, metadata);
  }

  /** A block's row carries no failure exactly when some RPC succeeded. */
  lemma {:induction false} FailsIffNoneSucceeded(results: seq<RpcResult>)
    ensures Timings(results) == [] <==> forall i :: 0 <= i < |results| ==> !Succeeded(results[i])
    ensures Aggregated(results).failedReason == None <==> exists i :: 0 <= i < |results| && Succeeded(results[i])
  {
    if results != [] {
      var n := |results| - 1;
      FailsIffNoneSucceeded(results[..n]);
      if Timings(results[..n]) != [] {
        var i :| 0 <= i < n && Succeeded(results[..n][i]);
        assert Succeeded(results[i]);
      } else {
        assert forall i :: 0 <= i < n ==> results[i] == results[..n][i];
      }
    }
  }

  /** What the retry wrapper sees of a dispatcher call. */
  function OutcomeOf(cfg: Config, end: End): Outcome {
    match end
    case Normal(results) => Returned(Aggregated(results))
    case BudgetExhausted =>
      Raised(Exn(Plain, "PreemptionBudgetExhausted", "Modal preemption recurrence threshold exhausted; aborting sweep"))
    case RecoveryFailed(e) =>
      Raised(Exn(Plain, "PreemptionRecoveryFailed",
                 "make_driver() failed during preemption recovery: " + e.name + ": " + e.message))
    case Escaped => Raised(Exn(Plain, "Exception", ""))
  }

  /** The dispatcher's state after `i` dispatches of the same block. */
  function After(cfg: Config, w: World, n: int, st: State, i: nat): State {
    if i == 0 then st else Dispatch(cfg, w, n, After(cfg, w, n, st, i - 1)).0
  }

  function OutcomeAt(cfg: Config, w: World, n: int, st: State, i: nat): Outcome {
    OutcomeOf(cfg, Dispatch(cfg, w, n, After(cfg, w, n, st, i)).1)
  }

  function Outcomes(cfg: Config, w: World, n: int, st: State): nat -> Outcome {
    (i: nat) => OutcomeAt(cfg, w, n, st, i)
  }

  function TransientModalError(): Exn -> bool {
    e => IsTransient(e)
  }

  ghost function BlockRow(cfg: Config, w: World, n: int, st: State): Row {
    RowOf(Outcomes(cfg, w, n, st), TransientModalError())
  }

  /** Blocks one after another through the wrapper, all on one dispatcher. */
  ghost function RunBlocks(cfg: Config, w: World, ns: seq<int>): (State, seq<Row>) {
    if ns == [] then (START, [])
    else
      var (st, rows) := RunBlocks(cfg, w, ns[..|ns| - 1]);
      var row := BlockRow(cfg, w, ns[|ns| - 1], st);
      (After(cfg, w, ns[|ns| - 1], st, row.dispatches), rows + [row])
  }

  ghost function TotalDispatches(rows: seq<Row>): nat {
    if rows == [] then 0 else TotalDispatches(rows[..|rows| - 1]) + rows[|rows| - 1].dispatches
  }

  lemma {:induction false} AfterKeepsInv(cfg: Config, w: World, n: int, st: State, i: nat)
    requires Inv(cfg, w, st)
    ensures Inv(cfg, w, After(cfg, w, n, st, i))
    ensures After(cfg, w, n, st, i).calls == st.calls + i
    ensures st.events <= After(cfg, w, n, st, i).events
  {
    hide Dispatch, Inv;
    if i > 0 {
      AfterKeepsInv(cfg, w, n, st, i - 1);
      DispatchKeepsInv(cfg, w, n, After(cfg, w, n, st, i - 1));
    }
  }

  /** The recovering dispatcher raises only errors the classifier calls permanent, so it is never
      dispatched three times for one block; twice only after a transient failure reason. */
  lemma AtMostTwoDispatches(cfg: Config, w: World, n: int, st: State)
    ensures var row := BlockRow(cfg, w, n, st);
      && 1 <= row.dispatches <= 2
      && (row.retryAttempted <==> row.dispatches == 2)
      && (row.dispatches == 2 <==>
            var o := OutcomeAt(cfg, w, n, st, 0); o.Returned? && TransientReason(o.result))
      && row.result == Settle(OutcomeAt(cfg, w, n, st, row.dispatches - 1))
  {
    hide Dispatch, Aggregated, ClassifyException, TransientReason;
    var outcomes := Outcomes(cfg, w, n, st);
    assert outcomes(0) == OutcomeAt(cfg, w, n, st, 0);
    assert outcomes(0).Raised? ==> !TransientModalError()(outcomes(0).exn);
  }

  /** The sweep over a dying endpoint. For any blocks and any world: exactly one row per block, no
      block ends the sweep, gathers are dispatches plus recoveries, and recoveries stay in budget. */
  lemma {:induction false} BlocksAlwaysGiveRows(cfg: Config, w: World, ns: seq<int>)
    ensures var (st, rows) := RunBlocks(cfg, w, ns);
      && |rows| == |ns|
      && Inv(cfg, w, st)
      && st.calls == TotalDispatches(rows)
      && |ns| <= st.calls <= 2 * |ns|
      && st.rounds == TotalDispatches(rows) + st.events
      && (cfg.budget >= 0 ==> st.events <= cfg.budget)
  {
    hide After, BlockRow;
    if ns != [] {
      var n, front := ns[|ns| - 1], ns[..|ns| - 1];
      BlocksAlwaysGiveRows(cfg, w, front);
      var (st, rows) := RunBlocks(cfg, w, front);
      AtMostTwoDispatches(cfg, w, n, st);
      AfterKeepsInv(cfg, w, n, st, BlockRow(cfg, w, n, st).dispatches);
      assert (rows + [BlockRow(cfg, w, n, st)])[..|rows|] == rows;
    }
  }

  ghost predicate DeadWorld(w: World) {
    forall round: nat, slot: nat :: IsDeathResult(w.rpc(round, slot))
  }

  /** Budget exhaustion does not abort a sweep, whatever the raised message says: with the endpoint
      dead for good and the budget spent, every further block becomes a failed row after a single
      dispatch, and the next block is tried all the same. */
  lemma ExhaustedBlocksBecomeFailedRows(cfg: Config, w: World, n: int, st: State)
    requires cfg.canRefresh && !cfg.anchor && n > 0 && DeadWorld(w) && st.events >= cfg.budget
    ensures var row := BlockRow(cfg, w, n, st);
      && row.dispatches == 1 && !row.retryAttempted
      && row.result.timings == [] && row.result.failedReason.Some?
      && After(cfg, w, n, st, 1).events == st.events
  {
    hide IsDeathResult, ClassifyException;
    var results := Gather(w, st.rounds, n);
    assert BlockFailedWithEndpointDeath(results, n);
    assert Dispatch(cfg, w, n, st).1 == BudgetExhausted;
    AtMostTwoDispatches(cfg, w, n, st);
    assert After(cfg, w, n, st, 0) == st;
  }

  // ----- Two ideas of a transient failure -----

  /** The gRPC statuses whose label the wrapper retries. */
  predicate RetriedStatus(c: GrpcCode) {
    c.Unavailable? || c.DeadlineExceeded? || c.Internal? || c.ResourceExhausted?
  }

  /** The names the wrapper does not retry differ in length from those it does, but for one that differs in
      its first letter. */
  lemma UnretriedName(c: GrpcCode)
    requires !RetriedStatus(c)
    ensures NameApart(CodeName(c))
  {
  }

  predicate NameApart(name: string) {
    |name| > 1 && ((|name| != 8 && |name| != 11 && |name| != 17 && |name| != 18) || name[0] == 'p')
  }

  lemma NameNotRetried(name: string)
    requires NameApart(name)
    ensures "grpc_" + name !in TRANSIENT_FAILURE_REASONS
  {
    var mark := "grpc_" + name;
    assert mark[0] == 'g' && mark[5] == name[0];
  }

  lemma NameRetried(c: GrpcCode)
    requires RetriedStatus(c)
    ensures "grpc_" + CodeName(c) in TRANSIENT_FAILURE_REASONS
  {
    var reasons := TRANSIENT_FAILURE_REASONS;
    assert reasons[0] == "grpc_" + "unavailable" && reasons[1] == "grpc_" + "deadline_exceeded";
    assert reasons[2] == "grpc_" + "resource_exhausted" && reasons[3] == "grpc_" + "internal";
  }

  lemma HttpxNotRetried(text: string)
    requires |text| > 1 && text[0] == 'h'
    ensures text !in TRANSIENT_FAILURE_REASONS
  {
  }

  /** An exception that reaches the dispatcher's aggregation is retried by its label if and only if it is a
      gRPC error of one of four statuses (or its class bears a retried name). Aborted gRPC calls and httpx
      errors are transient when they escape the dispatcher, and permanent when they are only labelled. */
  lemma RetriedByLabelIff(e: Exn)
    ensures ClassifyDispatcherExn(e) in TRANSIENT_FAILURE_REASONS <==>
      match e.kind
      case GrpcRpc(code, _) => code.Some? && RetriedStatus(code.value)
      case Plain => Lower(e.name) in TRANSIENT_FAILURE_REASONS
      case _ => false
    ensures !e.kind.Plain? && ClassifyDispatcherExn(e) in TRANSIENT_FAILURE_REASONS ==> IsTransient(e)
    ensures !e.kind.Plain? ==>
      (IsTransient(e) && ClassifyDispatcherExn(e) !in TRANSIENT_FAILURE_REASONS <==>
        if e.kind.GrpcRpc? then e.kind.code == Some(Aborted) else !e.kind.HttpxOther?)
  {
    hide Lower, TRANSIENT_FAILURE_REASONS, CodeName;
    var mark := ClassifyDispatcherExn(e);
    match e.kind
    case GrpcRpc(code, _) =>
      if code == None {
        NameNotRetried("unknown");
      } else if RetriedStatus(code.value) {
        NameRetried(code.value);
      } else {
        UnretriedName(code.value);
        NameNotRetried(CodeName(code.value));
      }
    case Plain =>
    case _ =>
      assert mark[0] == 'h' && |mark| > 1;
      HttpxNotRetried(mark);
  }

  // ----- The shipped drivers -----

  const DRIVER_PREFIXES: seq<string> := ["grpc chat: ", "grpc embed: ", "rest chat: ", "rest embed: "]

  /** The reasons the shipped drivers give: they catch gRPC and httpx errors themselves. */
  predicate DriverText(reason: string) {
    exists i :: 0 <= i < |DRIVER_PREFIXES| && DRIVER_PREFIXES[i] <= reason
  }

  lemma DriverTextNeverRetried(reason: string)
    requires DriverText(reason)
    ensures reason != "" && reason !in TRANSIENT_FAILURE_REASONS
  {
    var i :| 0 <= i < |DRIVER_PREFIXES| && DRIVER_PREFIXES[i] <= reason;
    assert reason[4] == DRIVER_PREFIXES[i][4] == ' ';
  }

  /** A success, or a failure with such a reason. */
  predicate FromDriver(r: RpcResult) {
    Succeeded(r) || (r.Answer? && r.failureReason.Some? && DriverText(r.failureReason.value))
  }

  ghost predicate DriverWorld(w: World) {
    forall round: nat, slot: nat :: FromDriver(w.rpc(round, slot))
  }

  lemma DriverBlockNotTransient(results: seq<RpcResult>)
    requires forall i :: 0 <= i < |results| ==> FromDriver(results[i])
    ensures !TransientReason(Aggregated(results))
  {
    hide TRANSIENT_FAILURE_REASONS, DriverText;
    FailsIffNoneSucceeded(results);
    NoSuccessIsNoReason();
    if Timings(results) == [] && results != [] {
      assert !Succeeded(results[0]);
      DriverTextNeverRetried(results[0].failureReason.value);
    }
  }

  lemma NoSuccessIsNoReason()
    ensures "no_successful_rpcs" !in TRANSIENT_FAILURE_REASONS
  {
    assert "no_successful_rpcs"[0] == 'n';
  }

  /** With the shipped drivers no block is ever retried: their failures are free text, which the wrapper
      does not know, and the dispatcher's own exceptions are permanent. */
  lemma NeverRetriedWithShippedDrivers(cfg: Config, w: World, n: int, st: State)
    requires DriverWorld(w)
    ensures BlockRow(cfg, w, n, st).dispatches == 1 && !BlockRow(cfg, w, n, st).retryAttempted
  {
    hide TransientReason, Aggregated;
    AtMostTwoDispatches(cfg, w, n, st);
    DispatchFromDriver(cfg, w, n, After(cfg, w, n, st, 0));
    var end := Dispatch(cfg, w, n, After(cfg, w, n, st, 0)).1;
    hide Dispatch, FromDriver;
    if end.Normal? {
      DriverBlockNotTransient(end.results);
    }
  }

  lemma GatherFromDriver(w: World, round: nat, n: int)
    requires DriverWorld(w)
    ensures forall i :: 0 <= i < |Gather(w, round, n)| ==> FromDriver(Gather(w, round, n)[i])
  {
    hide FromDriver;
  }

  lemma {:induction false} RecoverFromDriver(cfg: Config, w: World, n: int, st: State, results: seq<RpcResult>)
    requires DriverWorld(w) && forall i :: 0 <= i < |results| ==> FromDriver(results[i])
    ensures var end := Recover(cfg, w, n, st, results).1;
      end.Normal? ==> forall i :: 0 <= i < |end.results| ==> FromDriver(end.results[i])
    decreases if cfg.budget > st.events then cfg.budget - st.events else 0
  {
    hide FromDriver, Classify, Escapes, Gather, DriverWorld;
    if cfg.canRefresh {
      var k := Classify(results, n);
      var seen := Seen(cfg, st, k);
      if Triggers(cfg, st.streak, k) && st.events < cfg.budget && w.make(st.refreshes).None? {
        var tried := Tried(seen);
        var again := Gather(w, tried.rounds, n);
        var next := Renewed(tried);
        GatherFromDriver(w, tried.rounds, n);
        RecoverFromDriver(cfg, w, n, next, again);
      }
    }
  }

  lemma DispatchFromDriver(cfg: Config, w: World, n: int, st: State)
    requires DriverWorld(w)
    ensures var end := Dispatch(cfg, w, n, st).1;
      end.Normal? ==> forall i :: 0 <= i < |end.results| ==> FromDriver(end.results[i])
  {
    GatherFromDriver(w, st.rounds, n);
    hide FromDriver, Recover, Escapes, Gather, DriverWorld;
    var st1 := Called(st);
    RecoverFromDriver(cfg, w, n, st1, Gather(w, st.rounds, n));
  }

  /** Endpoint deaths that the wrapper would not call transient are exactly the cancelled gRPC calls. */
  lemma DeathsNotTransient(e: Exn)
    ensures IsEndpointDeath(e) && !IsTransient(e) <==>
      e.kind.GrpcRpc? && e.kind.code == Some(Cancelled) && HasDeathFragment(e.kind.details)
  {
  }

  /** The label of an escaped exception is a retried reason if and only if it is none of the unexpected ones:
      had it been a block's reason, it would have been retried. */
  lemma EscapedLabelRetriedIff(e: Exn)
    ensures ClassifyException(e) in TRANSIENT_FAILURE_REASONS <==> ClassifyException(e) != "unexpected_" + e.name
    ensures "asyncio_timeout" in TRANSIENT_FAILURE_REASONS
  {
    hide Contains, Lower;
    var reasons := TRANSIENT_FAILURE_REASONS;
    assert reasons[0] == "grpc_unavailable" && reasons[1] == "grpc_deadline_exceeded" && reasons[3] == "grpc_internal";
    assert reasons[4] == "asyncio_timeout" && reasons[5] == "rest_transient" && reasons[6] == "single_rpc_engine_oom";
    UnexpectedNotRetried(e.name);
  }

  lemma UnexpectedNotRetried(name: string)
    ensures "unexpected_" + name !in TRANSIENT_FAILURE_REASONS
  {
    assert ("unexpected_" + name)[0] == 'u';
  }
}

/** The sweep loop: dispatch order, skip set, iteration-indexed prompts, and the checkpoint log. */
module Sweep {
  import opened Common
  import opened Numerals
  import opened Cells
  import opened Errors
  import opened Retry
  import opened Prompts
  import opened LogLines
  import opened Checkpoint

  datatype Stamp = Stamp(start: nat, end: nat)

  datatype Summary = Summary(latencies: seq<Option<string>>, clockAnomaly: bool)

  /** What a sweep is asked to do. */
  datatype Inputs = Inputs(n: int, axis: seq<int>, baseSeed: int, sources: PromptSources)

  /** What the sweep calls out to. A dispatch is a deterministic function of its arguments and of how
      often the block has been dispatched already. */
  datatype Env = Env(
    dispatch: (BlockKey, int, BlockInputs, nat) -> Outcome,
    isTransient: Exn -> bool,
    summarise: BlockResult -> Summary)

  datatype Status = Completed | Stopped(error: PromptError)

  datatype SweepRun = SweepRun(measurements: seq<Measurement>, status: Status)

  function KeyOf(m: Measurement): BlockKey {
    BlockKey(m.cellId, m.cohort, m.maxTokens)
  }

  function KeysOf(ms: seq<Measurement>): (ks: seq<BlockKey>)
    ensures |ks| == |ms|
  {
    seq(|ms|, i requires 0 <= i < |ms| => KeyOf(ms[i]))
  }

  /** `completed_block_keys`. */
  function CompletedKeys(ms: seq<Measurement>): set<BlockKey> {
    set i | 0 <= i < |ms| :: KeyOf(ms[i])
  }

  function Attempts(env: Env, key: BlockKey, n: int, inputs: BlockInputs): nat -> Outcome {
    (i: nat) => env.dispatch(key, n, inputs, i)
  }

  function BuildMeasurement(key: BlockKey, n: int, row: Row, stamp: Stamp, inputs: BlockInputs, env: Env): Measurement {
    var r := row.result;
    if r.failedReason.Some? || r.timings == [] then
      var reason := if r.failedReason.Some? && r.failedReason.value != "" then r.failedReason.value
                    else "no_successful_rpcs";
      Measurement(key.cellId, key.cohort, key.maxTokens, n, seq(LATENCY_COLUMNS, _ => None), Some(reason),
                  stamp.start, stamp.end, row.retryAttempted, false, inputs.promptSource, "natural_eos",
                  inputs.corpusIdx)
    else
      var s := env.summarise(r);
      Measurement(key.cellId, key.cohort, key.maxTokens, n, s.latencies, None, stamp.start, stamp.end,
                  row.retryAttempted, s.clockAnomaly, inputs.promptSource, "natural_eos", inputs.corpusIdx)
  }

  function InputsFor(inp: Inputs, key: BlockKey, iterIdx: nat): Result<BlockInputs, PromptError> {
    ResolveBlockInputs(key.cellId, key.maxTokens, iterIdx, key.cohort, inp.baseSeed, inp.sources, false)
  }

  /** One block at iteration `iterIdx`: resolve its inputs, dispatch it with the retry wrapper. */
  ghost function MeasureSpec(inp: Inputs, env: Env, key: BlockKey, iterIdx: nat, stamp: Stamp)
    : (r: Result<Measurement, PromptError>)
    ensures r.Ok? ==> KeyOf(r.value) == key
  {
    match InputsFor(inp, key, iterIdx)
    case Err(e) => Err(e)
    case Ok(inputs) =>
      Ok(BuildMeasurement(key, inp.n, RowOf(Attempts(env, key, inp.n, inputs), env.isTransient), stamp, inputs, env))
  }

  /** What a row records: its key, the number of RPCs asked for, the corpus index of its iteration, the
      retry flag of its dispatches, and latencies if and only if the block did not fail. */
  lemma RowRecords(inp: Inputs, env: Env, key: BlockKey, iterIdx: nat, stamp: Stamp)
    requires MeasureSpec(inp, env, key, iterIdx, stamp).Ok?
    requires forall r :: exists i :: 0 <= i < |env.summarise(r).latencies| && env.summarise(r).latencies[i].Some?
    ensures var m := MeasureSpec(inp, env, key, iterIdx, stamp).value;
      var inputs := InputsFor(inp, key, iterIdx).value;
      var row := RowOf(Attempts(env, key, inp.n, inputs), env.isTransient);
      && KeyOf(m) == key && m.nRpcs == inp.n && m.start == stamp.start && m.end == stamp.end
      && m.corpusIdx == (if key.maxTokens in NULL_ANCHOR_MAX_TOKENS then None else Some(iterIdx))
      && (m.retryAttempted <==> row.dispatches >= 2)
      && (m.failedReason == None <==> row.result.failedReason == None && row.result.timings != [])
      && (m.failedReason == None <==> exists i :: 0 <= i < |m.latencies| && m.latencies[i].Some?)
      && m.failedReason != Some("")
      && (row.result.failedReason.Some? && row.result.failedReason.value != "" ==> m.failedReason == row.result.failedReason)
      && (m.failedReason.Some? && !row.result.failedReason.Some? ==> m.failedReason.value == "no_successful_rpcs")
      && (m.failedReason == None ==> m.latencies == env.summarise(row.result).latencies)
      && (m.failedReason == None ==> m.clockAnomaly == env.summarise(row.result).clockAnomaly)
      && m.promptSource == inputs.promptSource
  {
    PromptRegimes(key.cellId, key.maxTokens, iterIdx, key.cohort, key.cohort, inp.baseSeed, inp.sources, false);
    hide ResolveBlockInputs, Dispatches;
  }

  method MeasureBlock(inp: Inputs, env: Env, key: BlockKey, iterIdx: nat, stamp: Stamp)
    returns (r: Result<Measurement, PromptError>)
    ensures r == MeasureSpec(inp, env, key, iterIdx, stamp)
  {
    var resolved := InputsFor(inp, key, iterIdx);
    if resolved.Err? {
      return Err(resolved.error);
    }
    var row := RunBlockWithRetry(Attempts(env, key, inp.n, resolved.value), env.isTransient);
    return Ok(BuildMeasurement(key, inp.n, row, stamp, resolved.value, env));
  }

  /** The sweep over a flat list of blocks: skip what is done, otherwise measure with the prompt of
      iteration `|ms|`. A block whose inputs do not resolve ends the sweep. */
  ghost function RunFrom(inp: Inputs, env: Env, clock: nat -> Stamp, done: set<BlockKey>,
                         order: seq<BlockKey>, ms: seq<Measurement>): (run: SweepRun)
    ensures ms <= run.measurements
    decreases |order|
  {
    if order == [] then SweepRun(ms, Completed)
    else if order[0] in done then RunFrom(inp, env, clock, done, order[1..], ms)
    else
      match MeasureSpec(inp, env, order[0], |ms|, clock(|ms|))
      case Err(e) => SweepRun(ms, Stopped(e))
      case Ok(m) => RunFrom(inp, env, clock, done, order[1..], ms + [m])
  }

  /** Row `j` is what its block gives at iteration `j`: dispatched with the inputs resolved for that index,
      which it records in the corpus regime. */
  ghost predicate RowOfIteration(inp: Inputs, env: Env, clock: nat -> Stamp, m: Measurement, j: nat) {
    var inputs := InputsFor(inp, KeyOf(m), j);
    && inputs.Ok?
    && m == BuildMeasurement(KeyOf(m), inp.n, RowOf(Attempts(env, KeyOf(m), inp.n, inputs.value), env.isTransient),
                             clock(j), inputs.value, env)
    && m.corpusIdx == if m.maxTokens in NULL_ANCHOR_MAX_TOKENS then None else Some(j)
  }

  ghost predicate RowsOfIterations(inp: Inputs, env: Env, clock: nat -> Stamp, ms: seq<Measurement>, first: nat) {
    forall j: nat :: first <= j < |ms| ==> RowOfIteration(inp, env, clock, ms[j], j)
  }

  lemma MeasuredAtIteration(inp: Inputs, env: Env, key: BlockKey, clock: nat -> Stamp, j: nat)
    requires MeasureSpec(inp, env, key, j, clock(j)).Ok?
    ensures RowOfIteration(inp, env, clock, MeasureSpec(inp, env, key, j, clock(j)).value, j)
  {
    PromptRegimes(key.cellId, key.maxTokens, j, key.cohort, key.cohort, inp.baseSeed, inp.sources, false);
    hide ResolveBlockInputs, RowOf;
  }

  /** Every row a run adds has the iteration index of its place in the list. */
  lemma {:induction false} RunIterations(inp: Inputs, env: Env, clock: nat -> Stamp, done: set<BlockKey>,
                                         order: seq<BlockKey>, ms: seq<Measurement>)
    ensures RowsOfIterations(inp, env, clock, RunFrom(inp, env, clock, done, order, ms).measurements, |ms|)
    decreases |order|
  {
    hide MeasureSpec, RowOfIteration;
    if order != [] {
      if order[0] in done {
        RunIterations(inp, env, clock, done, order[1..], ms);
      } else {
        var m := MeasureSpec(inp, env, order[0], |ms|, clock(|ms|));
        if m.Ok? {
          MeasuredAtIteration(inp, env, order[0], clock, |ms|);
          RunIterations(inp, env, clock, done, order[1..], ms + [m.value]);
          var out := RunFrom(inp, env, clock, done, order, ms).measurements;
          assert out[|ms|] == (ms + [m.value])[|ms|];
        }
      }
    }
  }

  /** A whole sweep, fresh or resumed. */
  ghost function RunSweepSpec(inp: Inputs, env: Env, clock: nat -> Stamp, preloaded: seq<Measurement>): SweepRun {
    RunFrom(inp, env, clock, CompletedKeys(preloaded), DispatchOrder(inp.axis), preloaded)
  }

  // ----- The loop of the source -----

  /** The `i` field of each `BLOCK_DONE` line: the count after every new block. */
  function DoneMarks(first: nat, last: nat, expected: nat): seq<string>
    requires first <= last
  {
    seq(last - first, i requires 0 <= i < last - first => NatText(first + i + 1) + "/" + NatText(expected))
  }

  /** Captures of anchor blocks: batch 0 before the first tuple, batch `t + 1` after tuple `t`, then
      the closing one. A batch is empty when the clock did not ask for it. */
  type AnchorFeed = nat -> seq<(string, Snapshot)>

  datatype Outputs = Outputs(run: SweepRun, anchors: map<string, seq<Snapshot>>, doneMarks: seq<string>)

  /** Since the sweep began, memory and log have grown by the same records. */
  ghost predicate InStep(preAnchors: map<string, seq<Snapshot>>, log0: string, pre: seq<Measurement>,
                         anchors: map<string, seq<Snapshot>>, log: string, ms: seq<Measurement>, trace: seq<Record>)
  {
    && log == log0 + LogText(trace)
    && ms == pre + MeasurementsOf(trace)
    && (forall r :: r in trace ==> !r.HeaderRecord?)
    && forall c :: AnchorsFor(anchors, c) == AnchorsFor(preAnchors, c) + AnchorsOf(trace, c)
  }

  /** The snapshots among the records, in order. */
  function PairsOf(rs: seq<Record>): seq<(string, Snapshot)> {
    if rs == [] then []
    else
      var last := rs[|rs| - 1];
      PairsOf(rs[..|rs| - 1]) + (if last.AnchorRecord? then [(last.cohort, last.snapshot)] else [])
  }

  /** The batches captured from `first` to before `next`. */
  function Captured(feed: AnchorFeed, first: nat, next: nat): seq<(string, Snapshot)> {
    if next <= first then [] else Captured(feed, first, next - 1) + feed(next - 1)
  }

  /** A sweep that carries no snapshot over captures the opening batch; one that does skips it. */
  predicate NothingCarried(anchors: map<string, seq<Snapshot>>) {
    forall c | c in anchors :: anchors[c] == []
  }

  lemma PairsOfAppend(rs: seq<Record>, r: Record)
    ensures PairsOf(rs + [r]) == PairsOf(rs) + (if r.AnchorRecord? then [(r.cohort, r.snapshot)] else [])
  {
    assert (rs + [r])[..|rs|] == rs;
  }

  lemma MoreCaptured(feed: AnchorFeed, first: nat, next: nat)
    requires first <= next
    ensures Captured(feed, first, next + 1) == Captured(feed, first, next) + feed(next)
    ensures Captured(feed, first, first) == []
  {
  }

  lemma {:induction false} CapturedGrows(feed: AnchorFeed, first: nat, next: nat, last: nat)
    requires next <= last
    ensures Captured(feed, first, next) <= Captured(feed, first, last)
  {
    if next < last {
      CapturedGrows(feed, first, next, last - 1);
    }
  }

  /** `run_sweep`: nested loops that append to memory and to the log. The flat specification gives its
      measurements; the log grows by exactly the records it measured, one line each, in order; and
      every capture reaches both the memory and the log. */
  method RunSweep(inp: Inputs, env: Env, clock: nat -> Stamp, feed: AnchorFeed, preloaded: seq<Measurement>,
                  preAnchors: map<string, seq<Snapshot>>, log0: string)
    returns (out: Outputs, trace: seq<Record>, log: string)
    ensures out.run == RunSweepSpec(inp, env, clock, preloaded)
    ensures InStep(preAnchors, log0, preloaded, out.anchors, log, out.run.measurements, trace)
    ensures out.doneMarks == DoneMarks(|preloaded|, |out.run.measurements|, |DispatchOrder(inp.axis)|)
    ensures RowsOfIterations(inp, env, clock, out.run.measurements, |preloaded|)
    ensures var first := if NothingCarried(preAnchors) then 0 else 1;
      var all := Captured(feed, first, |MainSweepTuples(inp.axis)| + 2);
      PairsOf(trace) <= all && (out.run.status == Completed ==> PairsOf(trace) == all)
  {
    RunIterations(inp, env, clock, CompletedKeys(preloaded), DispatchOrder(inp.axis), preloaded);
    hide PairsOf, Captured, RowsOfIterations, MainSweepTuples, BlocksOfTuple, MeasureSpec, InStep, DoneMarks, CompletedKeys, LineText, KeyOf, CohortsAtConcurrency;
    var done := CompletedKeys(preloaded);
    var ms, anchors := preloaded, preAnchors;
    var tuples := IterMainSweepTuples(inp.axis);
    var expected := CountBlocks(tuples);
    var marks: seq<string> := [];
    trace, log := [], log0;
    StartInStep(preAnchors, log0, preloaded);
    StartDoneMarks(|preloaded|, expected);
    ghost var first := if NothingCarried(preAnchors) then 0 else 1;
    NoPairs();
    MoreCaptured(feed, 0, 0);
    MoreCaptured(feed, 1, 1);
    if NothingCarried(anchors) {
      anchors, trace, log := CaptureAnchors(feed(0), preAnchors, log0, preloaded, ms, anchors, trace, log);
    }
    ghost var whole := RunSweepSpec(inp, env, clock, preloaded);
    assert tuples[0..] == tuples;
    for t := 0 to |tuples|
      invariant RunFrom(inp, env, clock, done, BlocksOf(tuples[t..]), ms) == whole
      invariant InStep(preAnchors, log0, preloaded, anchors, log, ms, trace)
      invariant |preloaded| <= |ms| && marks == DoneMarks(|preloaded|, |ms|, expected)
      invariant PairsOf(trace) == Captured(feed, first, t + 1)
    {
      var block := BlocksOfTuple(tuples[t]);
      ghost var later := BlocksOf(tuples[t + 1..]);
      assert tuples[t..][0] == tuples[t] && tuples[t..][1..] == tuples[t + 1..];
      assert block[0..] + later == BlocksOf(tuples[t..]);
      for i := 0 to |block|
        invariant RunFrom(inp, env, clock, done, block[i..] + later, ms) == whole
        invariant InStep(preAnchors, log0, preloaded, anchors, log, ms, trace)
        invariant |preloaded| <= |ms| && marks == DoneMarks(|preloaded|, |ms|, expected)
        invariant PairsOf(trace) == Captured(feed, first, t + 1)
      {
        assert (block[i..] + later)[0] == block[i] && (block[i..] + later)[1..] == block[i + 1..] + later;
        if block[i] in done {
          continue;
        }
        var m := MeasureBlock(inp, env, block[i], |ms|, clock(|ms|));
        if m.Err? {
          CapturedGrows(feed, first, t + 1, |tuples| + 2);
          out := Outputs(SweepRun(ms, Stopped(m.error)), anchors, marks);
          return;
        }
        MeasurementKeepsStep(preAnchors, log0, preloaded, anchors, log, ms, trace, m.value);
        MoreDoneMarks(|preloaded|, |ms|, expected);
        ms := ms + [m.value];
        log := log + LineText(MeasurementRecord(m.value));
        PairsOfAppend(trace, MeasurementRecord(m.value));
        trace := trace + [MeasurementRecord(m.value)];
        marks := marks + [NatText(|ms|) + "/" + NatText(expected)];
      }
      assert block[|block|..] + later == later;
      MoreCaptured(feed, first, t + 1);
      anchors, trace, log := CaptureAnchors(feed(t + 1), preAnchors, log0, preloaded, ms, anchors, trace, log);
    }
    assert tuples[|tuples|..] == [];
    MoreCaptured(feed, first, |tuples| + 1);
    anchors, trace, log := CaptureAnchors(feed(|tuples| + 1), preAnchors, log0, preloaded, ms, anchors, trace, log);
    out := Outputs(SweepRun(ms, Completed), anchors, marks);
  }

  /** `_count_expected_blocks`. */
  method CountBlocks(tuples: seq<SweepTuple>) returns (total: nat)
    ensures total == |BlocksOf(tuples)|
  {
    total := 0;
    for t := 0 to |tuples|
      invariant total + |BlocksOf(tuples[t..])| == |BlocksOf(tuples)|
    {
      assert tuples[t..][0] == tuples[t] && tuples[t..][1..] == tuples[t + 1..];
      total := total + |CohortsAtConcurrency(tuples[t].concurrency)|;
    }
  }

  lemma StartDoneMarks(first: nat, expected: nat)
    ensures DoneMarks(first, first, expected) == []
  {
  }

  lemma MoreDoneMarks(first: nat, last: nat, expected: nat)
    requires first <= last
    ensures DoneMarks(first, last + 1, expected) ==
            DoneMarks(first, last, expected) + [NatText(last + 1) + "/" + NatText(expected)]
  {
  }

  /** Snapshots of one cohort among the records. */
  function AnchorsOf(rs: seq<Record>, cohort: string): seq<Snapshot> {
    if rs == [] then []
    else
      var last := rs[|rs| - 1];
      AnchorsOf(rs[..|rs| - 1], cohort)
      + (if last.AnchorRecord? && last.cohort == cohort then [last.snapshot] else [])
  }

  /** `_capture_anchor_block`: each snapshot goes to memory, then to the log. */
  method CaptureAnchors(batch: seq<(string, Snapshot)>, ghost preAnchors: map<string, seq<Snapshot>>,
                        ghost base: string, ghost pre: seq<Measurement>, ghost ms: seq<Measurement>,
                        anchors0: map<string, seq<Snapshot>>, trace0: seq<Record>, log0: string)
    returns (anchors: map<string, seq<Snapshot>>, trace: seq<Record>, log: string)
    requires InStep(preAnchors, base, pre, anchors0, log0, ms, trace0)
    ensures InStep(preAnchors, base, pre, anchors, log, ms, trace)
    ensures trace0 <= trace && |trace| == |trace0| + |batch|
    ensures PairsOf(trace) == PairsOf(trace0) + batch
  {
    hide InStep, PairsOf, LineText, AnchorsFor;
    assert batch[..0] == [];
    anchors, trace, log := anchors0, trace0, log0;
    for i := 0 to |batch|
      invariant InStep(preAnchors, base, pre, anchors, log, ms, trace)
      invariant trace0 <= trace && |trace| == |trace0| + i
      invariant PairsOf(trace) == PairsOf(trace0) + batch[..i]
    {
      var (c, snap) := batch[i];
      assert batch[..i + 1] == batch[..i] + [(c, snap)];
      PairsOfAppend(trace, AnchorRecord(c, snap));
      AnchorKeepsStep(preAnchors, base, pre, anchors, log, ms, trace, c, snap);
      anchors := anchors[c := AnchorsFor(anchors, c) + [snap]];
      log := log + LineText(AnchorRecord(c, snap));
      trace := trace + [AnchorRecord(c, snap)];
    }
    assert batch[..|batch|] == batch;
  }

  lemma NoPairs()
    ensures PairsOf([]) == []
  {
  }

  lemma StartInStep(preAnchors: map<string, seq<Snapshot>>, log0: string, pre: seq<Measurement>)
    ensures InStep(preAnchors, log0, pre, preAnchors, log0, pre, [])
  {
  }

  lemma LogTextAppend(rs: seq<Record>, r: Record)
    ensures LogText(rs + [r]) == LogText(rs) + LineText(r)
  {
    hide RecordText;
    assert RecordTexts(rs + [r]) == RecordTexts(rs) + [RecordText(r)];
    JoinLinesSnoc(RecordTexts(rs), RecordText(r));
  }

  lemma MeasurementKeepsStep(preAnchors: map<string, seq<Snapshot>>, log0: string, pre: seq<Measurement>,
                             anchors: map<string, seq<Snapshot>>, log: string, ms: seq<Measurement>,
                             trace: seq<Record>, m: Measurement)
    requires InStep(preAnchors, log0, pre, anchors, log, ms, trace)
    ensures InStep(preAnchors, log0, pre, anchors, log + LineText(MeasurementRecord(m)), ms + [m],
                   trace + [MeasurementRecord(m)])
  {
    hide LogText, LineText;
    var rec := MeasurementRecord(m);
    LogTextAppend(trace, rec);
    assert (trace + [rec])[..|trace|] == trace;
  }

  lemma AnchorKeepsStep(preAnchors: map<string, seq<Snapshot>>, log0: string, pre: seq<Measurement>,
                        anchors: map<string, seq<Snapshot>>, log: string, ms: seq<Measurement>,
                        trace: seq<Record>, c: string, snap: Snapshot)
    requires InStep(preAnchors, log0, pre, anchors, log, ms, trace)
    ensures InStep(preAnchors, log0, pre, anchors[c := AnchorsFor(anchors, c) + [snap]],
                   log + LineText(AnchorRecord(c, snap)), ms, trace + [AnchorRecord(c, snap)])
  {
    hide LogText, LineText, MeasurementsOf, AnchorsOf, StateOf, AddRecord, AnchorsFor;
    var rec := AnchorRecord(c, snap);
    LogTextAppend(trace, rec);
    StateOfAppend(trace, rec);
    forall d ensures AnchorsFor(anchors[c := AnchorsFor(anchors, c) + [snap]], d)
                     == AnchorsFor(preAnchors, d) + AnchorsOf(trace + [rec], d)
    {
      AnchorsOfAppend(trace, rec, d);
      AnchorsForUpdate(anchors, c, AnchorsFor(anchors, c) + [snap], d);
    }
  }

  lemma AnchorsForUpdate(anchors: map<string, seq<Snapshot>>, c: string, snaps: seq<Snapshot>, d: string)
    ensures AnchorsFor(anchors[c := snaps], d) == if d == c then snaps else AnchorsFor(anchors, d)
  {
  }

  lemma AnchorsOfAppend(trace: seq<Record>, rec: Record, cohort: string)
    ensures AnchorsOf(trace + [rec], cohort) ==
            AnchorsOf(trace, cohort) + (if rec.AnchorRecord? && rec.cohort == cohort then [rec.snapshot] else [])
  {
    assert (trace + [rec])[..|trace|] == trace;
  }
}

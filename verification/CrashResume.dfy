/** The checkpoint writer as a step system, and the whole story: crash anywhere, load, resume. */
module CrashResume {
  import opened Common
  import opened Cells
  import opened LogLines
  import opened Checkpoint
  import Codec
  import opened Sweep
  import opened Resume

  /** What the process holds and what has reached the disk. A record enters memory first; its line
      then reaches the disk character by character. */
  datatype Writer = Writer(memory: seq<Record>, disk: string, unwritten: string)

  ghost predicate Begin(s: Writer, t: Writer, r: Record) {
    && s.unwritten == "" && WellFormed(r)
    && t == Writer(s.memory + [r], s.disk, LineText(r))
  }

  predicate WriteChar(s: Writer, t: Writer) {
    s.unwritten != "" && t == Writer(s.memory, s.disk + [s.unwritten[0]], s.unwritten[1..])
  }

  ghost predicate Next(s: Writer, t: Writer) {
    WriteChar(s, t) || exists r :: Begin(s, t, r)
  }

  ghost predicate Started(s: Writer) {
    && s.memory != [] && s.memory[0].HeaderRecord? && AllWellFormed(s.memory)
    && s.disk == LogText(s.memory) && s.unwritten == ""
  }

  /** A run of the writer from a started log; the process may die after any of its states. */
  ghost predicate IsRun(run: seq<Writer>) {
    && run != [] && Started(run[0])
    && forall i :: 0 <= i < |run| - 1 ==> Next(run[i], run[i + 1])
  }

  /** Everything in memory is on disk except a tail of the last record's line. */
  ghost predicate Behind(s: Writer) {
    && s.memory != [] && s.memory[0].HeaderRecord? && AllWellFormed(s.memory)
    && (s.unwritten != "" ==> |s.memory| > 1)
    && var n := |s.memory| - 1;
       && |s.unwritten| <= |LineText(s.memory[n])|
       && var cut := |LineText(s.memory[n])| - |s.unwritten|;
          && s.unwritten == LineText(s.memory[n])[cut..]
          && s.disk == LogText(s.memory[..n]) + LineText(s.memory[n])[..cut]
  }

  lemma LogSplitsOffLast(rs: seq<Record>)
    requires rs != []
    ensures LogText(rs) == LogText(rs[..|rs| - 1]) + LineText(rs[|rs| - 1])
  {
    hide LogText, LineText;
    LogTextAppend(rs[..|rs| - 1], rs[|rs| - 1]);
    assert rs[..|rs| - 1] + [rs[|rs| - 1]] == rs;
  }

  lemma StepKeepsBehind(s: Writer, t: Writer)
    requires Behind(s) && Next(s, t)
    ensures Behind(t)
  {
    hide LogText, LineText, WellFormed;
    var n := |s.memory| - 1;
    if WriteChar(s, t) {
      var line := LineText(s.memory[n]);
      var cut := |line| - |s.unwritten|;
      assert line[..cut] + [line[cut]] == line[..cut + 1];
    } else {
      var r :| Begin(s, t, r);
      LogSplitsOffLast(s.memory);
      assert t.memory[..|s.memory|] == s.memory;
      assert s.disk == LogText(s.memory);
      assert LineText(r)[0..] == LineText(r) && s.disk + LineText(r)[..0] == s.disk;
    }
  }

  lemma StartedIsBehind(s: Writer)
    requires Started(s)
    ensures Behind(s)
  {
    hide LogText, LineText, AllWellFormed;
    LogSplitsOffLast(s.memory);
    var line := LineText(s.memory[|s.memory| - 1]);
    assert line[|line|..] == "" && line[..|line|] == line;
  }

  lemma {:induction false} RunKeepsBehind(run: seq<Writer>, i: nat)
    requires IsRun(run) && i < |run|
    ensures Behind(run[i])
  {
    hide Behind, Started, WriteChar, Begin;
    if i == 0 {
      StartedIsBehind(run[0]);
    } else {
      RunKeepsBehind(run, i - 1);
      assert Next(run[i - 1], run[i - 1 + 1]);
      StepKeepsBehind(run[i - 1], run[i]);
    }
  }

  /** Whatever state the process dies in, the loader recovers all of memory, or all of it but the one
      record whose text is still incomplete on disk. */
  lemma MemoryAheadByAtMostOne(run: seq<Writer>, i: nat)
    requires IsRun(run) && i < |run|
    ensures var s := run[i];
      s.memory != [] && Load(s.disk) == Ok(StateOf(if |s.unwritten| <= 1 then s.memory else s.memory[..|s.memory| - 1]))
  {
    hide LogText, Load, StateOf, WellFormed, FieldsOf;
    RunKeepsBehind(run, i);
    var s := run[i];
    var n := |s.memory| - 1;
    var cut := |LineText(s.memory[n])| - |s.unwritten|;
    if n == 0 {
      LoadsHeaderOnly(s.memory[0]);
      assert s.memory == [s.memory[0]];
      LogSplitsOffLast(s.memory);
      assert s.disk == LogText(s.memory[..n]) + LineText(s.memory[n]);
    } else {
      CrashConsistency(s.memory[..n], s.memory[n], cut);
      assert s.memory[..n] + [s.memory[n]] == s.memory;
    }
  }

  lemma LoadsHeaderOnly(h: Record)
    requires h.HeaderRecord? && WellFormed(h)
    ensures Load(LogText([h])) == Ok(StateOf([h]))
  {
    hide FieldsOf, LoadLine;
    FoldWithTail([h], "");
    HeaderSurvives([h]);
    assert LogText([h]) + "" == LogText([h]);
  }

  // ----- Crash anywhere, load, resume -----

  lemma {:induction false} MeasurementsOfPrefix(rs: seq<Record>, j: nat)
    requires j <= |rs|
    ensures MeasurementsOf(rs[..j]) <= MeasurementsOf(rs)
  {
    if j == |rs| {
      assert rs[..j] == rs;
    } else {
      var front := rs[..|rs| - 1];
      MeasurementsOfPrefix(front, j);
      assert front[..j] == rs[..j];
    }
  }

  lemma {:induction false} MeasurementsAfterHeader(h: Record, rs: seq<Record>)
    requires h.HeaderRecord?
    ensures MeasurementsOf([h] + rs) == MeasurementsOf(rs)
  {
    if rs == [] {
      assert [h] + rs == [h];
      assert [h][..0] == [];
    } else {
      MeasurementsAfterHeader(h, rs[..|rs| - 1]);
      assert ([h] + rs)[..|rs|] == [h] + rs[..|rs| - 1];
    }
  }

  lemma HeaderThenLog(h: Record, rs: seq<Record>)
    ensures LogText([h] + rs) == LineText(h) + LogText(rs)
  {
    hide RecordText;
    var texts := RecordTexts([h] + rs);
    assert texts == [RecordText(h)] + RecordTexts(rs);
    assert texts[0] == RecordText(h) && texts[1..] == RecordTexts(rs);
  }

  /** A log cut anywhere after its header loads as its first `j` records: those whose text is
      complete at the cut, and no others. */
  lemma CutLogLoads(h: Record, trace: seq<Record>, cut: nat) returns (j: nat)
    requires h.HeaderRecord? && WellFormed(h) && AllWellFormed(trace)
    requires |LogText([h])| <= cut <= |LogText([h] + trace)|
    ensures j <= |trace| && Load(LogText([h] + trace)[..cut]) == Ok(StateOf([h] + trace[..j]))
    ensures |LogText([h] + trace[..j])| <= cut + 1
    ensures j < |trace| ==> cut < |LogText([h] + trace[..j])| + |RecordText(trace[j])|
  {
    hide LogText, Load, WellFormed, FieldsOf;
    var text := LogText([h] + trace);
    HeaderThenLog(h, trace);
    HeaderThenLog(h, []);
    EmptyLog();
    assert [h] + [] == [h];
    if trace == [] {
      j := 0;
      assert text[..cut] == text && [h] + trace == [h] == [h] + trace[..0];
      LoadsHeaderOnly(h);
    } else {
      var whole, part := CutAtRecord(trace, cut - |LineText(h)|);
      var rs := [h] + trace[..whole];
      HeaderThenLog(h, trace[..whole]);
      assert text[..cut] == LineText(h) + LogText(trace)[..cut - |LineText(h)|];
      assert text[..cut] == LogText(rs) + LineText(trace[whole])[..part];
      CrashConsistency(rs, trace[whole], part);
      if part < |RecordText(trace[whole])| {
        j := whole;
      } else {
        j := whole + 1;
        assert rs + [trace[whole]] == [h] + trace[..j];
        LogSplitsOffLast([h] + trace[..j]);
        assert ([h] + trace[..j])[..j] == rs;
        if j < |trace| {
          Codec.EncodeShape(FieldsOf(trace[j]));
        }
      }
    }
  }

  lemma CutAtRecord(rs: seq<Record>, cut: nat) returns (whole: nat, part: nat)
    requires rs != [] && cut <= |LogText(rs)|
    ensures whole < |rs| && part <= |LineText(rs[whole])|
    ensures LogText(rs)[..cut] == LogText(rs[..whole]) + LineText(rs[whole])[..part]
    ensures cut == |LogText(rs[..whole])| + part
  {
    hide RecordText;
    whole, part := CutOfJoined(RecordTexts(rs), cut);
    assert RecordTexts(rs)[..whole] == RecordTexts(rs[..whole]);
  }

  ghost predicate FullSummaries(env: Env) {
    forall r :: |env.summarise(r).latencies| == LATENCY_COLUMNS
  }

  lemma {:induction false} MeasuredRowsComplete(inp: Inputs, env: Env, clock: nat -> Stamp, done: set<BlockKey>,
                                                order: seq<BlockKey>, ms: seq<Measurement>)
    requires FullSummaries(env)
    requires forall m :: m in ms ==> |m.latencies| == LATENCY_COLUMNS
    ensures forall m :: m in RunFrom(inp, env, clock, done, order, ms).measurements ==> |m.latencies| == LATENCY_COLUMNS
    decreases |order|
  {
    if order != [] {
      if order[0] in done {
        MeasuredRowsComplete(inp, env, clock, done, order[1..], ms);
      } else {
        var r := MeasureSpec(inp, env, order[0], |ms|, clock(|ms|));
        if r.Ok? {
          assert |r.value.latencies| == LATENCY_COLUMNS;
          MeasuredRowsComplete(inp, env, clock, done, order[1..], ms + [r.value]);
        }
      }
    }
  }

  lemma {:induction false} TraceWellFormed(trace: seq<Record>)
    requires forall r :: r in trace ==> !r.HeaderRecord?
    requires forall m :: m in MeasurementsOf(trace) ==> |m.latencies| == LATENCY_COLUMNS
    ensures AllWellFormed(trace)
  {
    if trace != [] {
      var front := trace[..|trace| - 1];
      TraceWellFormed(front);
      assert trace == front + [trace[|trace| - 1]];
    }
  }

  /** Crash anywhere, then resume. Let a fresh sweep write its log, `trace` being the records it
      appended. Stop the log at any character after its header, load what is there, and resume under
      any clock: the resumed sweep has the measurements of the uninterrupted one, block for block. */
  lemma CrashAnywhereThenResume(inp: Inputs, env: Env, clockA: nat -> Stamp, clockB: nat -> Stamp, h: Record,
                                anchors: map<string, seq<Snapshot>>, log: string, trace: seq<Record>, cut: nat)
    requires NoDup(inp.axis) && FullSummaries(env)
    requires h.HeaderRecord? && WellFormed(h)
    requires InStep(map[], LogText([h]), [], anchors, log, RunSweepSpec(inp, env, clockA, []).measurements, trace)
    requires |LogText([h])| <= cut <= |log|
    ensures var full := RunSweepSpec(inp, env, clockA, []);
      var loaded := Load(log[..cut]);
      && loaded.Ok?
      && loaded.value.measurements <= full.measurements
      && SameRun(full, RunSweepSpec(inp, env, clockB, loaded.value.measurements))
  {
    hide LogText, Load, WellFormed, FieldsOf, MeasureSpec, DispatchOrder;
    var full := RunSweepSpec(inp, env, clockA, []);
    assert full.measurements == MeasurementsOf(trace);
    MeasuredRowsComplete(inp, env, clockA, CompletedKeys([]), DispatchOrder(inp.axis), []);
    TraceWellFormed(trace);
    HeaderThenLog(h, trace);
    HeaderThenLog(h, []);
    assert [h] + [] == [h];
    EmptyLog();
    assert log == LogText([h] + trace);
    var j := CutLogLoads(h, trace, cut);
    MeasurementsAfterHeader(h, trace[..j]);
    MeasurementsOfPrefix(trace, j);
    var pre := Load(log[..cut]).value.measurements;
    assert pre == full.measurements[..|pre|];
    ResumeEquivalence(inp, env, clockA, clockB, |pre|);
  }

  lemma EmptyLog()
    ensures LogText([]) == ""
  {
  }

  // ----- Anchors -----

  lemma {:induction false} StateHoldsAnchors(rs: seq<Record>, cohort: string)
    ensures AnchorsFor(StateOf(rs).anchors, cohort) == AnchorsOf(rs, cohort)
  {
    if rs != [] {
      StateHoldsAnchors(rs[..|rs| - 1], cohort);
    }
  }

  lemma {:induction false} AnchorsOfPrefix(rs: seq<Record>, j: nat, cohort: string)
    requires j <= |rs|
    ensures AnchorsOf(rs[..j], cohort) <= AnchorsOf(rs, cohort)
  {
    if j == |rs| {
      assert rs[..j] == rs;
    } else {
      var front := rs[..|rs| - 1];
      AnchorsOfPrefix(front, j, cohort);
      assert front[..j] == rs[..j];
    }
  }

  lemma {:induction false} AnchorsAfterHeader(h: Record, rs: seq<Record>, cohort: string)
    requires h.HeaderRecord?
    ensures AnchorsOf([h] + rs, cohort) == AnchorsOf(rs, cohort)
  {
    if rs == [] {
      assert [h] + rs == [h];
      assert [h][..0] == [];
    } else {
      AnchorsAfterHeader(h, rs[..|rs| - 1], cohort);
      assert ([h] + rs)[..|rs|] == [h] + rs[..|rs| - 1];
    }
  }

  /** Wherever the log of a fresh sweep is cut after its header, what loads of each cohort's anchors is
      an initial stretch of what the sweep had captured. */
  lemma CrashKeepsAnchors(h: Record, anchors: map<string, seq<Snapshot>>, log: string, ms: seq<Measurement>,
                          trace: seq<Record>, cut: nat, cohort: string)
    requires h.HeaderRecord? && WellFormed(h) && AllWellFormed(trace)
    requires InStep(map[], LogText([h]), [], anchors, log, ms, trace)
    requires |LogText([h])| <= cut <= |log|
    ensures var loaded := Load(log[..cut]);
      loaded.Ok? && AnchorsFor(loaded.value.anchors, cohort) <= AnchorsFor(anchors, cohort)
  {
    hide LogText, Load, WellFormed, FieldsOf, StateOf, AnchorsOf;
    HeaderThenLog(h, trace);
    HeaderThenLog(h, []);
    EmptyLog();
    assert [h] + [] == [h];
    assert log == LogText([h] + trace);
    var j := CutLogLoads(h, trace, cut);
    StateHoldsAnchors([h] + trace[..j], cohort);
    AnchorsAfterHeader(h, trace[..j], cohort);
    AnchorsOfPrefix(trace, j, cohort);
    assert AnchorsFor(map[], cohort) == [];
  }
}

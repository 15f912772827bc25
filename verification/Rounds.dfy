/** Any number of crash and resume rounds on one log. */
module Rounds {
  import opened Common
  import opened Cells
  import opened LogLines
  import opened Checkpoint
  import opened Sweep
  import opened Resume
  import opened CrashResume
  import opened TornLog

  /** What one round brings with it: its own environment and clock, the anchors it starts and ends
      with, the records it would append if it were not stopped, and where its log is cut. */
  datatype RoundOf = RoundOf(
    env: Env, clock: nat -> Stamp, preAnchors: map<string, seq<Snapshot>>, anchors: map<string, seq<Snapshot>>,
    trace: seq<Record>, cut: nat)

  /** A round: load the log, resume from what it holds, append, stop at any character. */
  ghost predicate Round(inp: Inputs, h: Record, log: string, next: string, r: RoundOf) {
    && FullSummaries(r.env) && Load(log).Ok?
    && var preloaded := Load(log).value.measurements;
       && InStep(r.preAnchors, log, preloaded, r.anchors, log + LogText(r.trace),
                 RunSweepSpec(inp, r.env, r.clock, preloaded).measurements, r.trace)
       && |LineText(h)| <= r.cut <= |log + LogText(r.trace)|
       && next == (log + LogText(r.trace))[..r.cut]
  }

  /** The logs between the rounds of a sweep that began with a fresh log. */
  ghost predicate IsHistory(inp: Inputs, h: Record, logs: seq<string>, rounds: seq<RoundOf>) {
    && |logs| == |rounds| + 1 && logs[0] == LineText(h)
    && forall i :: 0 <= i < |rounds| ==> RoundAt(inp, h, logs, rounds, i)
  }

  ghost predicate RoundAt(inp: Inputs, h: Record, logs: seq<string>, rounds: seq<RoundOf>, i: nat)
    requires i < |rounds| && |logs| == |rounds| + 1
  {
    Round(inp, h, logs[i], logs[i + 1], rounds[i])
  }

  /** The measurements have distinct keys of the dispatch order and all their latency columns. */
  ghost predicate Sound(inp: Inputs, ms: seq<Measurement>) {
    && NoDup(KeysOf(ms)) && CompletedKeys(ms) <= Elements(DispatchOrder(inp.axis))
    && forall m :: m in ms ==> |m.latencies| == LATENCY_COLUMNS
  }

  /** Pieces of records, header first, and sound wherever it is cut behind the header. */
  ghost predicate GoodLog(inp: Inputs, h: Record, log: string) {
    && (exists lines, tail :: IsLog(h, log, lines, tail))
    && forall cut :: |LineText(h)| <= cut <= |log| ==> LoadsSound(inp, log[..cut])
  }

  ghost predicate IsLog(h: Record, log: string, lines: seq<Pieces>, tail: Pieces) {
    ValidLines(lines) && AllValid(tail) && Headed(lines, h) && log == LogOf(lines, tail)
  }

  ghost predicate LoadsSound(inp: Inputs, log: string) {
    Load(log).Ok? && Sound(inp, Load(log).value.measurements)
  }

  // ----- What loads is part of what was in memory -----

  lemma {:induction false} MeasurementsConcat(a: seq<Record>, b: seq<Record>)
    ensures MeasurementsOf(a + b) == MeasurementsOf(a) + MeasurementsOf(b)
  {
    if b == [] {
      assert a + b == a;
    } else {
      assert (a + b)[..|a + b| - 1] == a + b[..|b| - 1];
      MeasurementsConcat(a, b[..|b| - 1]);
    }
  }

  lemma SoundPart(inp: Inputs, a: seq<Measurement>, b: seq<Measurement>, c: seq<Measurement>, d: seq<Measurement>)
    requires Sound(inp, a + b + c + d)
    ensures Sound(inp, a + c)
  {
    hide DispatchOrder;
    var all, part := a + b + c + d, a + c;
    forall i | 0 <= i < |part|
      ensures part[i] == all[if i < |a| then i else i + |b|]
    {
    }
    forall i, j | 0 <= i < j < |part| ensures KeysOf(part)[i] != KeysOf(part)[j] {
      assert KeysOf(all)[if i < |a| then i else i + |b|] != KeysOf(all)[if j < |a| then j else j + |b|];
    }
    forall x | x in CompletedKeys(part) ensures x in CompletedKeys(all) {
      var i :| 0 <= i < |part| && KeyOf(part[i]) == x;
      assert KeyOf(all[if i < |a| then i else i + |b|]) == x;
    }
    forall m | m in part ensures m in all {
    }
  }

  /** A run keeps its measurements sound, finished or not. */
  lemma RunKeepsSound(inp: Inputs, env: Env, clock: nat -> Stamp, preloaded: seq<Measurement>)
    requires NoDup(inp.axis) && FullSummaries(env) && Sound(inp, preloaded)
    ensures Sound(inp, RunSweepSpec(inp, env, clock, preloaded).measurements)
  {
    hide MeasureSpec, MainSweepTuples, BlocksOf;
    var order := DispatchOrder(inp.axis);
    DispatchOrderSound(inp.axis);
    CompletedGrowth(inp, env, clock, CompletedKeys(preloaded), order, preloaded);
    MeasuredRowsComplete(inp, env, clock, CompletedKeys(preloaded), order, preloaded);
  }

  /** The records a round appends are well formed. */
  lemma TraceComplete(inp: Inputs, h: Record, log: string, next: string, r: RoundOf)
    requires NoDup(inp.axis) && Round(inp, h, log, next, r) && LoadsSound(inp, log)
    ensures AllWellFormed(r.trace)
    ensures Sound(inp, Load(log).value.measurements + MeasurementsOf(r.trace))
  {
    hide Load, LogText, Sound, RunSweepSpec;
    var preloaded := Load(log).value.measurements;
    RunKeepsSound(inp, r.env, r.clock, preloaded);
    SoundColumns(inp, preloaded + MeasurementsOf(r.trace));
    TraceWellFormed(r.trace);
  }

  lemma SoundColumns(inp: Inputs, ms: seq<Measurement>)
    requires Sound(inp, ms)
    ensures forall m :: m in ms ==> |m.latencies| == LATENCY_COLUMNS
  {
  }

  /** A round leaves a good log behind a good log. */
  lemma RoundKeepsGood(inp: Inputs, h: Record, log: string, next: string, r: RoundOf)
    requires NoDup(inp.axis) && h.HeaderRecord? && WellFormed(h)
    requires GoodLog(inp, h, log) && |LineText(h)| <= |log| && Round(inp, h, log, next, r)
    ensures GoodLog(inp, h, next) && |LineText(h)| <= |next|
  {
    hide Load, LogText, LineText, Sound, WellFormed, InStep, LogOf, ValidLines, AllValid, Headed;
    var lines, tail :| IsLog(h, log, lines, tail);
    assert log[..|log|] == log;
    assert LoadsSound(inp, log[..|log|]);
    TraceComplete(inp, h, log, next, r);
    var whole := log + LogText(r.trace);
    AppendLog(lines, tail, h, r.trace);
    var lines', tail' := CutLog(Appended(lines, tail, r.trace), TailAfter(tail, r.trace), h, r.cut);
    assert IsLog(h, next, lines', tail');
    forall cut | |LineText(h)| <= cut <= |next| ensures LoadsSound(inp, next[..cut]) {
      assert next[..cut] == whole[..cut];
      CutWhole(inp, h, log, lines, tail, r.trace, cut);
    }
  }

  /** Any cut of a good log with sound records behind it loads sound measurements. */
  lemma CutWhole(inp: Inputs, h: Record, log: string, lines: seq<Pieces>, tail: Pieces, trace: seq<Record>, cut: nat)
    requires h.HeaderRecord? && WellFormed(h) && AllWellFormed(trace)
    requires GoodLog(inp, h, log) && |LineText(h)| <= |log| && IsLog(h, log, lines, tail)
    requires Load(log).Ok? && Sound(inp, Load(log).value.measurements + MeasurementsOf(trace))
    requires |LineText(h)| <= cut <= |log + LogText(trace)|
    ensures LoadsSound(inp, (log + LogText(trace))[..cut])
  {
    hide Load, LogText, LineText, Sound, WellFormed, LogOf, ValidLines, AllValid, Headed, StateOf, RecordsOf, RecordOf;
    if cut <= |log| {
      assert (log + LogText(trace))[..cut] == log[..cut];
    } else {
      var n := cut - |log|;
      assert (log + LogText(trace))[..cut] == log + LogText(trace)[..n];
      var a, b := CutAppended(lines, tail, h, trace, n);
      LoadLog(lines, tail, h);
      KeptPart(inp, RecordsOf(lines), RecordOf(tail), trace, a, b);
    }
  }

  lemma KeptPart(inp: Inputs, whole: seq<Record>, tail: seq<Record>, trace: seq<Record>, a: nat, b: nat)
    requires a <= b <= |trace|
    requires Sound(inp, MeasurementsOf(whole + tail) + MeasurementsOf(trace))
    ensures Sound(inp, MeasurementsOf(whole + trace[a..b]))
  {
    hide Sound, MeasurementsOf;
    MeasurementsConcat(whole, tail);
    MeasurementsConcat(whole, trace[a..b]);
    MeasurementsConcat(trace[..a] + trace[a..b], trace[b..]);
    MeasurementsConcat(trace[..a], trace[a..b]);
    assert trace == trace[..a] + trace[a..b] + trace[b..];
    var before, lost := MeasurementsOf(whole), MeasurementsOf(tail);
    var skipped, kept, later := MeasurementsOf(trace[..a]), MeasurementsOf(trace[a..b]), MeasurementsOf(trace[b..]);
    assert before + lost + (skipped + kept + later) == before + (lost + skipped) + kept + later;
    SoundPart(inp, before, lost + skipped, kept, later);
  }

  /** A fresh log is good. */
  lemma FreshLogGood(inp: Inputs, h: Record)
    requires h.HeaderRecord? && WellFormed(h)
    ensures GoodLog(inp, h, LineText(h))
  {
    hide Load, DispatchOrder, WellFormed, RecordText, LogText, LineOf;
    var log := LineText(h);
    LoadsHeaderOnly(h);
    HeaderThenLog(h, []);
    EmptyLog();
    assert [h] + [] == [h] && log + "" == log;
    assert log == LogText([h]);
    NoMeasurements(h);
    SoundNothing(inp);
    HeaderAlone(h);
    assert IsLog(h, log, Singles([h]), []);
    forall cut | |log| <= cut <= |log| ensures LoadsSound(inp, log[..cut]) {
      assert log[..cut] == log;
    }
  }

  lemma HeaderAlone(h: Record)
    requires WellFormed(h)
    ensures IsLog(h, LineText(h), Singles([h]), [])
  {
    hide WellFormed, RecordText, LineOf;
    SinglesTexts([h]);
    EmptyLine();
    assert RecordTexts([h]) == [RecordText(h)];
    assert JoinLines([RecordText(h)]) == RecordText(h) + "\n" + JoinLines([]);
    assert LineText(h) + "" == LineText(h);
  }

  lemma NoMeasurements(h: Record)
    requires h.HeaderRecord?
    ensures StateOf([h]).measurements == []
  {
    assert [h][..0] == [];
  }

  lemma SoundNothing(inp: Inputs)
    ensures Sound(inp, [])
  {
  }

  // ----- Any number of rounds -----

  lemma {:induction false} HistoryGood(inp: Inputs, h: Record, logs: seq<string>, rounds: seq<RoundOf>, i: nat)
    requires NoDup(inp.axis) && h.HeaderRecord? && WellFormed(h)
    requires IsHistory(inp, h, logs, rounds) && i < |logs|
    ensures GoodLog(inp, h, logs[i]) && |LineText(h)| <= |logs[i]|
  {
    hide GoodLog, Round, WellFormed, LineText;
    if i == 0 {
      FreshLogGood(inp, h);
    } else {
      HistoryGood(inp, h, logs, rounds, i - 1);
      assert RoundAt(inp, h, logs, rounds, i - 1);
      RoundKeepsGood(inp, h, logs[i - 1], logs[i], rounds[i - 1]);
    }
  }

  /** Crash and resume as often as you like, each round under its own environment and clock, its log cut
      at any character behind the header: every load succeeds, and what loads are distinct blocks of the
      dispatch order. */
  lemma EveryLoadSound(inp: Inputs, h: Record, logs: seq<string>, rounds: seq<RoundOf>, i: nat)
    requires NoDup(inp.axis) && h.HeaderRecord? && WellFormed(h)
    requires IsHistory(inp, h, logs, rounds) && i < |logs|
    ensures Load(logs[i]).Ok?
    ensures var preloaded := Load(logs[i]).value.measurements;
      NoDup(KeysOf(preloaded)) && CompletedKeys(preloaded) <= Elements(DispatchOrder(inp.axis))
  {
    hide Load, DispatchOrder, WellFormed, LineText, IsHistory;
    HistoryGood(inp, h, logs, rounds, i);
    var log := logs[i];
    assert log[..|log|] == log;
    assert LoadsSound(inp, log[..|log|]);
  }

  /** And a round that completes holds every block of the dispatch order exactly once, 22 for every cap. */
  lemma LastRoundCoversAll(inp: Inputs, env: Env, clock: nat -> Stamp, h: Record, logs: seq<string>, rounds: seq<RoundOf>)
    requires NoDup(inp.axis) && h.HeaderRecord? && WellFormed(h)
    requires IsHistory(inp, h, logs, rounds)
    requires Load(logs[|logs| - 1]).Ok? ==>
      RunSweepSpec(inp, env, clock, Load(logs[|logs| - 1]).value.measurements).status == Completed
    ensures Load(logs[|logs| - 1]).Ok?
    ensures var out := RunSweepSpec(inp, env, clock, Load(logs[|logs| - 1]).value.measurements).measurements;
      multiset(KeysOf(out)) == multiset(DispatchOrder(inp.axis)) && |out| == 22 * |inp.axis|
  {
    var preloaded := Load(logs[|logs| - 1]);
    hide Load, DispatchOrder, WellFormed, LineText, IsHistory, RunSweepSpec;
    EveryLoadSound(inp, h, logs, rounds, |logs| - 1);
    CoverageFromAnyCheckpoint(inp, env, clock, preloaded.value.measurements);
  }
}

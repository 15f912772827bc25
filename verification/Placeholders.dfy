/** Rows for the caps a validating sweep skips, and the sweep-level channels that must not see them. */
module Placeholders {
  import opened Common
  import opened Cells
  import opened Tables
  import opened Crossover

  const NOT_VALIDATED_MARKER := "not_validated"

  datatype SweepMode = Validate | Publish

  /** The stamps every placeholder carries. */
  datatype Stamps = Stamps(start: nat, end: nat)

  function Placeholder(cell: string, cohort: string, cap: int, at: Stamps): Point {
    Point(
      cell, cohort, cap, 0, None, None, Some(NOT_VALIDATED_MARKER), false,
      if EMBED <= cell then "corpus_sharegpt_embed" else "corpus_sharegpt", at.start, at.end)
  }

  /** Of the interior caps, those a validating sweep does not measure. */
  predicate Filled(cap: int) {
    cap !in VALIDATE_MAX_TOKENS_AXIS
  }

  /** Adds the rows of `interior` that are to be filled and missing. */
  function AddMissing(caps: map<int, Point>, interior: seq<int>, cell: string, cohort: string, at: Stamps): map<int, Point> {
    caps + map cap | cap in interior && Filled(cap) && cap !in caps :: Placeholder(cell, cohort, cap, at)
  }

  function FillCaps(caps: map<int, Point>, cell: string, cohort: string, at: Stamps): map<int, Point> {
    AddMissing(caps, INTERIOR_CAP_MAX_TOKENS, cell, cohort, at)
  }

  function FillCohorts(cohorts: map<string, map<int, Point>>, cell: string, at: Stamps): map<string, map<int, Point>> {
    map cohort | cohort in cohorts :: FillCaps(cohorts[cohort], cell, cohort, at)
  }

  function Fill(table: Table, mode: SweepMode, at: Stamps): Table {
    if mode == Publish then table else map cell | cell in table :: FillCohorts(table[cell], cell, at)
  }

  // ----- The loops -----

  method FillCapsLoop(caps: map<int, Point>, interior: seq<int>, cell: string, cohort: string, at: Stamps)
    returns (out: map<int, Point>)
    ensures out == AddMissing(caps, interior, cell, cohort, at)
  {
    hide Placeholder, AddMissing;
    out := caps;
    NoneMissing(caps, interior, cell, cohort, at);
    for i := 0 to |interior|
      invariant out == AddMissing(caps, interior[..i], cell, cohort, at)
    {
      OneMoreMissing(caps, interior, i, cell, cohort, at);
      if interior[i] in VALIDATE_MAX_TOKENS_AXIS {
        continue;
      }
      if interior[i] in out {
        continue;
      }
      out := out[interior[i] := Placeholder(cell, cohort, interior[i], at)];
    }
    assert interior[..|interior|] == interior;
  }

  lemma NoneMissing(caps: map<int, Point>, interior: seq<int>, cell: string, cohort: string, at: Stamps)
    ensures AddMissing(caps, interior[..0], cell, cohort, at) == caps
  {
  }

  lemma OneMoreMissing(caps: map<int, Point>, interior: seq<int>, i: nat, cell: string, cohort: string, at: Stamps)
    requires i < |interior|
    ensures var before := AddMissing(caps, interior[..i], cell, cohort, at);
      AddMissing(caps, interior[..i + 1], cell, cohort, at)
        == if !Filled(interior[i]) || interior[i] in before then before
           else before[interior[i] := Placeholder(cell, cohort, interior[i], at)]
  {
    hide Placeholder, Filled;
    assert interior[..i + 1] == interior[..i] + [interior[i]];
  }

  method FillCohortsLoop(cohorts: map<string, map<int, Point>>, cell: string, at: Stamps)
    returns (out: map<string, map<int, Point>>)
    ensures out == FillCohorts(cohorts, cell, at)
  {
    hide AddMissing;
    out := map[];
    var pending := cohorts.Keys;
    while pending != {}
      invariant pending <= cohorts.Keys
      invariant out == map cohort | cohort in cohorts && cohort !in pending :: FillCaps(cohorts[cohort], cell, cohort, at)
    {
      var cohort :| cohort in pending;
      var caps := FillCapsLoop(cohorts[cohort], INTERIOR_CAP_MAX_TOKENS, cell, cohort, at);
      out := out[cohort := caps];
      pending := pending - {cohort};
    }
  }

  /** `fill_validate_mode_placeholders`; the order of the cells and cohorts does not matter. */
  method FillValidateModePlaceholders(table: Table, mode: SweepMode, at: Stamps) returns (out: Table)
    ensures out == Fill(table, mode, at)
  {
    hide FillCohorts;
    if mode != Validate {
      return table;
    }
    out := map[];
    var pending := table.Keys;
    while pending != {}
      invariant pending <= table.Keys
      invariant out == map cell | cell in table && cell !in pending :: FillCohorts(table[cell], cell, at)
    {
      var cell :| cell in pending;
      var cohorts := FillCohortsLoop(table[cell], cell, at);
      out := out[cell := cohorts];
      pending := pending - {cell};
    }
  }

  // ----- What filling does to single rows -----

  predicate Present(table: Table, cell: string, cohort: string) {
    cell in table && cohort in table[cell]
  }

  /** Measured rows stay; rows appear exactly at the unmeasured interior caps of the cohorts present. */
  lemma FilledRow(table: Table, at: Stamps, cell: string, cohort: string, cap: int)
    ensures RowAt(Fill(table, Validate, at), cell, cohort, cap)
         == if RowAt(table, cell, cohort, cap).Some? then RowAt(table, cell, cohort, cap)
            else if Present(table, cell, cohort) && cap in INTERIOR_CAP_MAX_TOKENS && Filled(cap) then Some(Placeholder(cell, cohort, cap, at))
            else None
  {
    hide Placeholder;
    var filled := Fill(table, Validate, at);
    if Present(table, cell, cohort) {
      assert filled[cell][cohort] == FillCaps(table[cell][cohort], cell, cohort, at);
    }
  }

  /** Filling again, with whatever stamps, changes nothing. */
  lemma FillIdempotent(table: Table, mode: SweepMode, at: Stamps, again: Stamps)
    ensures Fill(Fill(table, mode, at), mode, again) == Fill(table, mode, at)
  {
    hide FillCaps;
    if mode == Validate {
      var once := Fill(table, mode, at);
      forall cell | cell in table ensures FillCohorts(once[cell], cell, again) == once[cell] {
        forall cohort | cohort in table[cell]
          ensures FillCaps(once[cell][cohort], cell, cohort, again) == once[cell][cohort]
        {
          CapsIdempotent(table[cell][cohort], cell, cohort, at, again);
        }
      }
    }
  }

  lemma CapsIdempotent(caps: map<int, Point>, cell: string, cohort: string, at: Stamps, again: Stamps)
    ensures FillCaps(FillCaps(caps, cell, cohort, at), cell, cohort, again) == FillCaps(caps, cell, cohort, at)
  {
    hide Placeholder;
  }

  /** A cohort measured on the validating axis ends with a row for every cap of the publishing one. */
  lemma AxisComplete(caps: map<int, Point>, cell: string, cohort: string, at: Stamps)
    requires forall cap :: cap in caps <==> cap in VALIDATE_MAX_TOKENS_AXIS
    ensures forall cap :: cap in FillCaps(caps, cell, cohort, at) <==> cap in MAX_TOKENS_AXIS
  {
    hide Placeholder;
    forall cap ensures cap in FillCaps(caps, cell, cohort, at) <==> cap in MAX_TOKENS_AXIS {
      assert cap in INTERIOR_CAP_MAX_TOKENS <==> cap == 256 || cap == 512 || cap == 1024 || cap == 2048;
      assert cap in VALIDATE_MAX_TOKENS_AXIS <==> cap == 10 || cap == 50 || cap == 2048;
      assert cap in MAX_TOKENS_AXIS <==> cap == 10 || cap == 50 || cap == 256 || cap == 512 || cap == 1024 || cap == 2048;
    }
  }

  // ----- Channels over the flattened table -----

  /** The rows found at a sequence of keys: the flattened table, in whatever order the keys have. */
  function Rows(table: Table, keys: seq<BlockKey>): seq<Point> {
    if keys == [] then []
    else
      var row := RowAt(table, keys[0].cellId, keys[0].cohort, keys[0].maxTokens);
      (if row.Some? then [row.value] else []) + Rows(table, keys[1..])
  }

  predicate IsPlaceholder(p: Point) {
    p.failed == Some(NOT_VALIDATED_MARKER)
  }

  /** Rows that are not placeholders. */
  function Real(rows: seq<Point>): seq<Point> {
    if rows == [] then [] else (if IsPlaceholder(rows[0]) then [] else [rows[0]]) + Real(rows[1..])
  }

  lemma {:induction false} RealConcat(a: seq<Point>, b: seq<Point>)
    ensures Real(a + b) == Real(a) + Real(b)
  {
    if a == [] {
      assert a + b == b;
    } else {
      assert (a + b)[1..] == a[1..] + b;
      RealConcat(a[1..], b);
    }
  }

  /** Filling adds no real row and drops none, in any order of the keys. */
  lemma {:induction false} RealRowsKept(table: Table, mode: SweepMode, at: Stamps, keys: seq<BlockKey>)
    ensures Real(Rows(Fill(table, mode, at), keys)) == Real(Rows(table, keys))
  {
    hide Fill, RowAt;
    if keys != [] {
      RealRowsKept(table, mode, at, keys[1..]);
      RealRowKept(table, mode, at, keys[0]);
      var filled := Fill(table, mode, at);
      var before := RowAt(table, keys[0].cellId, keys[0].cohort, keys[0].maxTokens);
      var after := RowAt(filled, keys[0].cellId, keys[0].cohort, keys[0].maxTokens);
      RealConcat(if before.Some? then [before.value] else [], Rows(table, keys[1..]));
      RealConcat(if after.Some? then [after.value] else [], Rows(filled, keys[1..]));
    }
  }

  lemma RealRowKept(table: Table, mode: SweepMode, at: Stamps, key: BlockKey)
    ensures var before := RowAt(table, key.cellId, key.cohort, key.maxTokens);
      var after := RowAt(Fill(table, mode, at), key.cellId, key.cohort, key.maxTokens);
      before != after ==> before == None && after.Some? && IsPlaceholder(after.value)
  {
    if mode == Validate {
      FilledRow(table, at, key.cellId, key.cohort, key.maxTokens);
    }
  }

  function Counts(p: Point, reason: string): nat {
    if p.failed == Some(reason) && !IsPlaceholder(p) then 1 else 0
  }

  /** `_tally_failure_summary`: how often each failure reason occurs. */
  function Tally(rows: seq<Point>, reason: string): nat {
    if rows == [] then 0
    else Tally(rows[..|rows| - 1], reason) + Counts(rows[|rows| - 1], reason)
  }

  function CountOf(counts: map<string, nat>, reason: string): nat {
    if reason in counts then counts[reason] else 0
  }

  method TallyFailureSummary(rows: seq<Point>) returns (counts: map<string, nat>)
    ensures forall reason :: CountOf(counts, reason) == Tally(rows, reason)
    ensures forall reason :: reason in counts ==> counts[reason] > 0
  {
    counts := map[];
    for i := 0 to |rows|
      invariant forall reason :: CountOf(counts, reason) == Tally(rows[..i], reason)
      invariant forall reason :: reason in counts ==> counts[reason] > 0
    {
      assert rows[..i + 1][..i] == rows[..i];
      var failed := rows[i].failed;
      if failed == None || failed == Some(NOT_VALIDATED_MARKER) {
        continue;
      }
      counts := counts[failed.value := CountOf(counts, failed.value) + 1];
    }
    assert rows[..|rows|] == rows;
  }

  lemma {:induction false} TallyConcat(a: seq<Point>, b: seq<Point>, reason: string)
    ensures Tally(a + b, reason) == Tally(a, reason) + Tally(b, reason)
  {
    if b == [] {
      assert a + b == a;
    } else {
      assert (a + b)[..|a + b| - 1] == a + b[..|b| - 1];
      TallyConcat(a, b[..|b| - 1], reason);
    }
  }

  lemma {:induction false} TallyOfReal(rows: seq<Point>, reason: string)
    ensures Tally(rows, reason) == Tally(Real(rows), reason)
  {
    if rows != [] {
      assert rows == [rows[0]] + rows[1..];
      TallyOfReal(rows[1..], reason);
      TallyConcat([rows[0]], rows[1..], reason);
      TallyConcat([rows[0]], Real(rows[1..]), reason);
      assert [rows[0]][..0] == [];
      assert Tally([rows[0]], reason) == Counts(rows[0], reason);
      assert Real(rows) == if IsPlaceholder(rows[0]) then Real(rows[1..]) else [rows[0]] + Real(rows[1..]);
    }
  }

  /** `compute_clock_anomaly_fraction` counts these rows, and among them the flagged ones. */
  predicate Carried(p: Point) {
    p.nRpcs > 0 && !IsPlaceholder(p)
  }

  function TrafficRows(rows: seq<Point>): seq<Point> {
    if rows == [] then [] else (if Carried(rows[0]) then [rows[0]] else []) + TrafficRows(rows[1..])
  }

  function Flagged(rows: seq<Point>): (n: nat)
    ensures n <= |rows|
  {
    if rows == [] then 0 else (if rows[0].clockAnomaly then 1 else 0) + Flagged(rows[1..])
  }

  function ClockAnomalyFraction(rows: seq<Point>): real {
    var traffic := TrafficRows(rows);
    if traffic == [] then 0.0 else Flagged(traffic) as real / |traffic| as real
  }

  lemma TrafficStep(row: Point, rows: seq<Point>)
    ensures TrafficRows([row] + rows) == (if Carried(row) then [row] else []) + TrafficRows(rows)
  {
    assert ([row] + rows)[1..] == rows;
  }

  lemma {:induction false} TrafficOfReal(rows: seq<Point>)
    ensures TrafficRows(rows) == TrafficRows(Real(rows))
  {
    if rows != [] {
      TrafficOfReal(rows[1..]);
      var rest := Real(rows[1..]);
      if IsPlaceholder(rows[0]) {
        assert Real(rows) == rest;
        assert TrafficRows(rows) == TrafficRows(rows[1..]);
      } else {
        assert Real(rows) == [rows[0]] + rest;
        TrafficStep(rows[0], rest);
      }
    }
  }

  // ----- The failure header -----

  predicate Failed(p: Point) {
    p.failed.Some?
  }

  function GroupKey(p: Point): Group {
    Group(p.cell, p.maxTokens)
  }

  function FailedCount(rows: seq<Point>): nat {
    if rows == [] then 0 else FailedCount(rows[..|rows| - 1]) + if Failed(rows[|rows| - 1]) then 1 else 0
  }

  /** All blocks of a (cell, cap) failed, and there is at least one. */
  ghost predicate GroupDown(rows: seq<Point>, g: Group) {
    && (exists i :: 0 <= i < |rows| && GroupKey(rows[i]) == g)
    && forall i :: 0 <= i < |rows| && GroupKey(rows[i]) == g ==> Failed(rows[i])
  }

  ghost predicate HeaderFires(rows: seq<Point>) {
    FailedCount(rows) >= 3 || exists g :: GroupDown(rows, g)
  }

  /** `compute_failure_summary_header_fired`: the groups are kept as whether all their blocks failed. */
  method FailureHeaderFired(rows: seq<Point>) returns (fired: bool)
    ensures fired <==> HeaderFires(rows)
  {
    var failed := 0;
    var groups: map<Group, bool> := map[];
    for i := 0 to |rows|
      invariant failed == FailedCount(rows[..i])
      invariant forall g :: g in groups <==> exists k :: 0 <= k < i && GroupKey(rows[k]) == g
      invariant forall g :: g in groups ==> (groups[g] <==> GroupDown(rows[..i], g))
    {
      assert rows[..i + 1][..i] == rows[..i];
      var g := GroupKey(rows[i]);
      ExtendGroups(rows, i);
      if Failed(rows[i]) {
        failed := failed + 1;
      }
      groups := groups[g := Failed(rows[i]) && (g !in groups || groups[g])];
    }
    assert rows[..|rows|] == rows;
    if failed >= 3 {
      return true;
    }
    var pending := groups.Keys;
    while pending != {}
      invariant pending <= groups.Keys
      invariant forall g :: g in groups && g !in pending ==> !groups[g]
    {
      var g :| g in pending;
      if groups[g] {
        return true;
      }
      pending := pending - {g};
    }
    return false;
  }

  lemma ExtendGroups(rows: seq<Point>, i: nat)
    requires i < |rows|
    ensures forall g :: g != GroupKey(rows[i]) ==> (GroupDown(rows[..i + 1], g) <==> GroupDown(rows[..i], g))
    ensures var g := GroupKey(rows[i]);
      GroupDown(rows[..i + 1], g) <==>
        Failed(rows[i]) && (GroupDown(rows[..i], g) || forall k :: 0 <= k < i ==> GroupKey(rows[k]) != g)
  {
    var a, b := rows[..i], rows[..i + 1];
    assert forall k :: 0 <= k < i ==> a[k] == b[k];
    assert b[i] == rows[i];
  }

  // ----- Non-interference -----

  /** Filling changes no channel: not the failure tally, not the failure header, not the clock-anomaly
      fraction, not any cell's crossover record. */
  lemma FillingIsInvisible(
    table: Table, mode: SweepMode, at: Stamps, keys: seq<BlockKey>, reason: string,
    baselines: Baselines, cell: string, verdict: string, axis: seq<int>)
    requires axis != []
    ensures var before, after := Rows(table, keys), Rows(Fill(table, mode, at), keys);
      && Tally(after, reason) == Tally(before, reason)
      && (HeaderFires(Real(after)) <==> HeaderFires(Real(before)))
      && ClockAnomalyFraction(after) == ClockAnomalyFraction(before)
      && CellThreshold(Fill(table, mode, at), baselines, cell, verdict, axis)
           == CellThreshold(table, baselines, cell, verdict, axis)
  {
    var before, after := Rows(table, keys), Rows(Fill(table, mode, at), keys);
    RealRowsKept(table, mode, at, keys);
    TallyOfReal(before, reason);
    TallyOfReal(after, reason);
    TrafficOfReal(before);
    TrafficOfReal(after);
    hide Rows, Real, Fill, HeaderFires, FirstOverlap;
    match IdentifyWinnerAndSecond(BaselinesOf(baselines, cell))
    case None =>
    case Some((winner, second)) => SameOverlaps(table, mode, at, cell, winner, second, axis);
  }

  lemma {:induction false} SameOverlaps(
    table: Table, mode: SweepMode, at: Stamps, cell: string, winner: string, second: string, axis: seq<int>)
    ensures FirstOverlap(Fill(table, mode, at), cell, winner, second, axis)
         == FirstOverlap(table, cell, winner, second, axis)
  {
    if axis != [] {
      SameOverlaps(table, mode, at, cell, winner, second, axis[1..]);
      if mode == Validate {
        FilledRow(table, at, cell, winner, axis[0]);
        FilledRow(table, at, cell, second, axis[0]);
      }
    }
  }

  /** The header must not be computed on the filled table itself: one cohort of one cell without its
      256-token row would set it off, if no other cohort of the cell has that row. */
  lemma {:induction false} UnfilteredHeaderMisfires(table: Table, at: Stamps, keys: seq<BlockKey>, cell: string, cohort: string)
    requires Present(table, cell, cohort)
    requires forall c :: RowAt(table, cell, c, 256) == None
    requires exists i :: 0 <= i < |keys| && keys[i] == BlockKey(cell, cohort, 256)
    requires forall i, row :: 0 <= i < |keys| && RowAt(table, keys[i].cellId, keys[i].cohort, keys[i].maxTokens) == Some(row) ==> GroupKey(row) == GroupOf(keys[i])
    ensures HeaderFires(Rows(Fill(table, Validate, at), keys))
  {
    var filled := Fill(table, Validate, at);
    var rows := Rows(filled, keys);
    var g := Group(cell, 256);
    FilledRow(table, at, cell, cohort, 256);
    assert INTERIOR_CAP_MAX_TOKENS[0] == 256;
    var i :| 0 <= i < |keys| && keys[i] == BlockKey(cell, cohort, 256);
    var k := RowOfKey(filled, keys, i);
    forall j | 0 <= j < |rows| && GroupKey(rows[j]) == g ensures Failed(rows[j]) {
      var m := KeyOfRow(filled, keys, j);
      FilledRow(table, at, keys[m].cellId, keys[m].cohort, keys[m].maxTokens);
    }
    assert GroupDown(rows, g);
  }

  lemma {:induction false} RowOfKey(table: Table, keys: seq<BlockKey>, i: nat) returns (k: nat)
    requires i < |keys| && RowAt(table, keys[i].cellId, keys[i].cohort, keys[i].maxTokens).Some?
    ensures k < |Rows(table, keys)|
    ensures Some(Rows(table, keys)[k]) == RowAt(table, keys[i].cellId, keys[i].cohort, keys[i].maxTokens)
  {
    if i == 0 {
      return 0;
    }
    var m := RowOfKey(table, keys[1..], i - 1);
    k := m + |Rows(table, keys)| - |Rows(table, keys[1..])|;
  }

  lemma {:induction false} KeyOfRow(table: Table, keys: seq<BlockKey>, k: nat) returns (i: nat)
    requires k < |Rows(table, keys)|
    ensures i < |keys| && RowAt(table, keys[i].cellId, keys[i].cohort, keys[i].maxTokens) == Some(Rows(table, keys)[k])
  {
    var added := |Rows(table, keys)| - |Rows(table, keys[1..])|;
    if k < added {
      return 0;
    }
    var m := KeyOfRow(table, keys[1..], k - added);
    return m + 1;
  }

  // ----- The counts, and what a placeholder holds -----

  /** A placeholder stands under its own key, is marked, and holds no measurement; its source follows the
      kind of its cell. */
  lemma PlaceholderHoldsNothing(cell: string, cohort: string, cap: int, at: Stamps)
    ensures var p := Placeholder(cell, cohort, cap, at);
      && p.cell == cell && p.cohort == cohort && p.maxTokens == cap && p.failed == Some("not_validated")
      && p.nRpcs == 0 && p.p50 == None && p.ci == None && !p.clockAnomaly
      && (p.promptSource == "corpus_sharegpt_embed" <==> "embed" <= cell)
      && (p.promptSource == "corpus_sharegpt" <==> !("embed" <= cell))
  {
    assert |"corpus_sharegpt_embed"| != |"corpus_sharegpt"|;
  }

  function HasReason(reason: string): Point -> bool {
    (p: Point) => p.failed == Some(reason) && reason != "not_validated"
  }

  /** The tally of a reason is the number of rows that failed for it; the marker's is zero. */
  lemma {:induction false} TallyIsCount(rows: seq<Point>, reason: string)
    ensures Tally(rows, reason) == |Where(HasReason(reason), rows)|
  {
    if rows != [] {
      TallyIsCount(rows[..|rows| - 1], reason);
    }
  }

  /** The header's count is the number of failed rows. */
  lemma {:induction false} FailedIsCount(rows: seq<Point>)
    ensures FailedCount(rows) == |Where((p: Point) => p.failed != None, rows)|
  {
    if rows != [] {
      FailedIsCount(rows[..|rows| - 1]);
    }
  }

  predicate HadTraffic(p: Point) {
    p.nRpcs > 0 && p.failed != Some("not_validated")
  }

  predicate HadAnomaly(p: Point) {
    HadTraffic(p) && p.clockAnomaly
  }

  lemma {:induction false} WhereConcat(p: Point -> bool, a: seq<Point>, b: seq<Point>)
    ensures |Where(p, a + b)| == |Where(p, a)| + |Where(p, b)|
  {
    if b == [] {
      assert a + b == a;
    } else {
      assert (a + b)[..|a + b| - 1] == a + b[..|b| - 1];
      WhereConcat(p, a, b[..|b| - 1]);
    }
  }

  lemma {:induction false} TrafficIsCount(rows: seq<Point>)
    ensures |TrafficRows(rows)| == |Where(HadTraffic, rows)|
    ensures Flagged(TrafficRows(rows)) == |Where(HadAnomaly, rows)|
  {
    if rows != [] {
      var head := [rows[0]];
      TrafficIsCount(rows[1..]);
      assert rows == head + rows[1..];
      WhereConcat(HadTraffic, head, rows[1..]);
      WhereConcat(HadAnomaly, head, rows[1..]);
      WhereOne(HadTraffic, rows[0]);
      WhereOne(HadAnomaly, rows[0]);
      hide Where;
      assert NOT_VALIDATED_MARKER == "not_validated";
      var rest := TrafficRows(rows[1..]);
      assert (head + rest)[1..] == rest;
      if Carried(rows[0]) {
        assert TrafficRows(rows) == head + rest;
        assert Flagged(head + rest) == (if rows[0].clockAnomaly then 1 else 0) + Flagged(rest);
      } else {
        assert TrafficRows(rows) == rest;
      }
    }
  }

  lemma WhereOne(p: Point -> bool, row: Point)
    ensures |Where(p, [row])| == if p(row) then 1 else 0
  {
    var one := [row];
    assert one[..|one| - 1] == [] && one[|one| - 1] == row;
    assert Where(p, one[..|one| - 1]) == [];
  }

  /** The fraction is the flagged part of the rows that carried traffic, and zero without such rows. */
  lemma ClockFractionExactly(rows: seq<Point>)
    ensures Where(HadTraffic, rows) == [] ==> ClockAnomalyFraction(rows) == 0.0
    ensures ClockAnomalyFraction(rows) * |Where(HadTraffic, rows)| as real == |Where(HadAnomaly, rows)| as real
  {
    TrafficIsCount(rows);
    hide Where;
    var n := |TrafficRows(rows)|;
    if n > 0 {
      assert Flagged(TrafficRows(rows)) as real / n as real * n as real == Flagged(TrafficRows(rows)) as real;
    }
  }
}

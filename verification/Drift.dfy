/** Null-anchor validation: this sweep's latencies against the published baseline. */
module Drift {
  import opened Common
  import opened Arithmetic
  import opened Cells
  import opened Tables

  // ----- The pooled threshold and the verdict -----

  datatype Verdict = PASS | WARN | FAIL

  const FLOOR_MS: real := 10.0
  const FLOOR_FRACTION: real := 0.025
  const WARN_MULTIPLIER: real := 3.0

  function Pooled(ciBaseline: real, ciSweep: real, baseline: real): real {
    Larger(
      Larger(Larger(Larger(ciBaseline, 0.0), Larger(ciSweep, 0.0)), FLOOR_MS), Larger(baseline, 0.0) * FLOOR_FRACTION)
  }

  function ComputeVerdict(sweep: real, baseline: real, ciBaseline: real, ciSweep: real): Verdict {
    var delta, pooled := Abs(sweep - baseline), Pooled(ciBaseline, ciSweep, baseline);
    if delta <= pooled then PASS else if delta <= WARN_MULTIPLIER * pooled then WARN else FAIL
  }

  function Severity(v: Verdict): nat {
    match v case PASS => 0 case WARN => 1 case FAIL => 2
  }

  /** The threshold is the largest of four bounds, so passing is staying within one of them. */
  lemma PassesWithinAnyBound(sweep: real, baseline: real, ciBaseline: real, ciSweep: real)
    ensures var delta := Abs(sweep - baseline);
      ComputeVerdict(sweep, baseline, ciBaseline, ciSweep) == PASS <==>
        delta <= 10.0 || delta <= ciBaseline || delta <= ciSweep || (baseline > 0.0 && delta <= 0.025 * baseline)
  {
  }

  /** Wider intervals on either side never worsen a verdict. */
  lemma WideningNeverWorsens(sweep: real, baseline: real, ciBaseline: real, ciSweep: real, wideBaseline: real, wideSweep: real)
    requires ciBaseline <= wideBaseline && ciSweep <= wideSweep
    ensures Severity(ComputeVerdict(sweep, baseline, wideBaseline, wideSweep))
         <= Severity(ComputeVerdict(sweep, baseline, ciBaseline, ciSweep))
  {
  }

  // ----- Anchors -----

  datatype Anchor = Anchor(
    cell: string, cohort: string, maxTokens: int,
    sweep: Option<real>, baseline: Option<real>, ciBaseline: Option<real>,
    verdict: Option<Verdict>, fraction: Option<real>, newBaseline: bool)

  function MakeNullAnchor(key: BlockKey, sweep: Option<real>, baseline: real, ciBaseline: real, ciSweep: real): Anchor {
    match sweep
    case None =>
      Anchor(key.cellId, key.cohort, key.maxTokens, None, Some(baseline), Some(ciBaseline), Some(FAIL), None, false)
    case Some(p50) =>
      var pooled := Pooled(ciBaseline, ciSweep, baseline);
      var fraction := if pooled > 0.0 then (p50 - baseline) / pooled else 0.0;
      Anchor(
        key.cellId, key.cohort, key.maxTokens, sweep, Some(baseline), Some(ciBaseline),
        Some(ComputeVerdict(p50, baseline, ciBaseline, ciSweep)), Some(fraction), false)
  }

  function MakeNewBaselineAnchor(key: BlockKey, sweep: Option<real>): Anchor {
    Anchor(key.cellId, key.cohort, key.maxTokens, sweep, None, None, None, None, true)
  }

  lemma FractionBand(delta: real, pooled: real, k: real)
    requires pooled > 0.0
    ensures Abs(delta / pooled) <= k <==> Abs(delta) <= k * pooled
  {
    var q := delta / pooled;
    AbsTimes(q, pooled);
    TimesPositive(Abs(q), k, pooled);
  }

  lemma AbsTimes(q: real, m: real)
    requires m > 0.0
    ensures Abs(q * m) == Abs(q) * m
  {
    TimesPositive(0.0, q, m);
  }

  lemma TimesPositive(x: real, y: real, m: real)
    requires m > 0.0
    ensures x <= y <==> x * m <= y * m
  {
    assert (y - x) * m == y * m - x * m;
    if x <= y {
      assert (y - x) * m >= 0.0;
    } else {
      assert (x - y) * m > 0.0;
    }
  }

  /** The verdict of a measured anchor and the fraction it reports always agree: PASS up to 1, FAIL
      above 3. A failed anchor block is FAIL without a fraction. */
  lemma VerdictMatchesFraction(key: BlockKey, sweep: Option<real>, baseline: real, ciBaseline: real, ciSweep: real)
    ensures var a := MakeNullAnchor(key, sweep, baseline, ciBaseline, ciSweep);
      && a.verdict.Some? && !a.newBaseline && (a.fraction.Some? <==> sweep.Some?)
      && (sweep == None ==> a.verdict == Some(FAIL))
      && (sweep.Some? ==>
            && (a.verdict == Some(PASS) <==> Abs(a.fraction.value) <= 1.0)
            && (a.verdict == Some(WARN) <==> 1.0 < Abs(a.fraction.value) <= 3.0)
            && (a.verdict == Some(FAIL) <==> Abs(a.fraction.value) > 3.0))
  {
    if sweep.Some? {
      var pooled := Pooled(ciBaseline, ciSweep, baseline);
      assert pooled >= 10.0;
      hide Pooled;
      FractionBand(sweep.value - baseline, pooled, 1.0);
      FractionBand(sweep.value - baseline, pooled, 3.0);
    }
  }

  // ----- Assembling the 48 anchors -----

  function KeyOf(p: Point): BlockKey {
    BlockKey(p.cell, p.cohort, p.maxTokens)
  }

  /** The last point measured under a key. */
  function LastPoint(points: seq<Point>, key: BlockKey): Option<Point> {
    if points == [] then None
    else if KeyOf(points[|points| - 1]) == key then Some(points[|points| - 1])
    else LastPoint(points[..|points| - 1], key)
  }

  function Get(byKey: map<BlockKey, Point>, key: BlockKey): Option<Point> {
    if key in byKey then Some(byKey[key]) else None
  }

  /** The single cap with a published baseline for a cell of this path. */
  function CrossCheckableMaxTokens(path: string): int {
    if path == CHAT_STREAM then 50 else 10
  }

  /** The baseline an anchor is checked against, if it is cross-checkable. */
  function Reference(baselines: Baselines, path: string, key: BlockKey): Option<Baseline> {
    if key.maxTokens != CrossCheckableMaxTokens(path) then None
    else
      match BaselineFor(BaselinesOf(baselines, key.cellId), key.cohort)
      case None => None
      case Some(b) => if b.ci > 0.0 then Some(b) else None
  }

  function AnchorFor(baselines: Baselines, path: string, key: BlockKey, point: Option<Point>): Anchor {
    var p50 := if point.Some? then point.value.p50 else None;
    var ci := if point.Some? && point.value.ci.Some? then point.value.ci.value else 0.0;
    match Reference(baselines, path, key)
    case None => MakeNewBaselineAnchor(key, p50)
    case Some(b) => MakeNullAnchor(key, p50, b.p50, b.ci, ci)
  }

  /** Position `i` of the assembled list: two caps for each of four cohorts for each cell. */
  function KeyAt(cells: seq<Cell>, cohorts: seq<string>, i: nat): BlockKey
    requires |cohorts| == 4 && i < 8 * |cells|
  {
    BlockKey(CellId(cells[i / 8]), cohorts[i / 2 % 4], if i % 2 == 0 then 10 else 50)
  }

  function AnchorAt(points: seq<Point>, baselines: Baselines, cells: seq<Cell>, cohorts: seq<string>, i: nat): Anchor
    requires |cohorts| == 4 && i < 8 * |cells|
  {
    var key := KeyAt(cells, cohorts, i);
    AnchorFor(baselines, cells[i / 8].path, key, LastPoint(points, key))
  }

  /** The index pass: later points replace earlier ones under the same key. */
  method IndexByKey(points: seq<Point>) returns (byKey: map<BlockKey, Point>)
    ensures forall key: BlockKey :: key.maxTokens in NULL_ANCHOR_MAX_TOKENS ==> Get(byKey, key) == LastPoint(points, key)
  {
    byKey := map[];
    for i := 0 to |points|
      invariant forall key: BlockKey :: key.maxTokens in NULL_ANCHOR_MAX_TOKENS ==> Get(byKey, key) == LastPoint(points[..i], key)
    {
      var point := points[i];
      assert points[..i + 1][..i] == points[..i];
      if point.maxTokens !in NULL_ANCHOR_MAX_TOKENS {
        continue;
      }
      byKey := byKey[KeyOf(point) := point];
    }
    assert points[..|points|] == points;
  }

  method AssembleAnchors(points: seq<Point>, baselines: Baselines, cells: seq<Cell>, cohorts: seq<string>)
    returns (anchors: seq<Anchor>)
    requires |cohorts| == 4
    ensures |anchors| == 8 * |cells|
    ensures forall i :: 0 <= i < |anchors| ==> anchors[i] == AnchorAt(points, baselines, cells, cohorts, i)
  {
    hide AnchorFor, LastPoint, AnchorAt, CellId;
    var byKey := IndexByKey(points);
    anchors := [];
    for c := 0 to |cells|
      invariant |anchors| == 8 * c
      invariant forall i :: 0 <= i < |anchors| ==> anchors[i] == AnchorAt(points, baselines, cells, cohorts, i)
    {
      for h := 0 to 4
        invariant |anchors| == 8 * c + 2 * h
        invariant forall i :: 0 <= i < |anchors| ==> anchors[i] == AnchorAt(points, baselines, cells, cohorts, i)
      {
        for m := 0 to 2
          invariant |anchors| == 8 * c + 2 * h + m
          invariant forall i :: 0 <= i < |anchors| ==> anchors[i] == AnchorAt(points, baselines, cells, cohorts, i)
        {
          var key := BlockKey(CellId(cells[c]), cohorts[h], NULL_ANCHOR_MAX_TOKENS[m]);
          AnchorAtLoop(points, baselines, cells, cohorts, c, h, m);
          anchors := anchors + [AnchorFor(baselines, cells[c].path, key, Get(byKey, key))];
        }
      }
    }
  }

  lemma AnchorAtLoop(points: seq<Point>, baselines: Baselines, cells: seq<Cell>, cohorts: seq<string>, c: nat, h: nat, m: nat)
    requires |cohorts| == 4 && c < |cells| && h < 4 && m < 2
    ensures var key := BlockKey(CellId(cells[c]), cohorts[h], NULL_ANCHOR_MAX_TOKENS[m]);
      && 8 * c + 2 * h + m < 8 * |cells| && key.maxTokens in NULL_ANCHOR_MAX_TOKENS
      && AnchorAt(points, baselines, cells, cohorts, 8 * c + 2 * h + m)
           == AnchorFor(baselines, cells[c].path, key, LastPoint(points, key))
  {
    hide AnchorFor, LastPoint, CellId;
    KeysAll(cells, cohorts, c, h, m);
    assert (8 * c + 2 * h + m) / 8 == c;
  }

  /** `make_null_anchor_validation`. */
  method MakeNullAnchorValidation(points: seq<Point>, baselines: Baselines) returns (anchors: seq<Anchor>)
    ensures |anchors| == 48
    ensures forall i :: 0 <= i < 48 ==> anchors[i] == AnchorAt(points, baselines, CELLS, COHORTS, i)
  {
    anchors := AssembleAnchors(points, baselines, CELLS, COHORTS);
  }

  /** Each (cell, cohort, cap) has exactly one anchor. */
  lemma KeysOnce(cells: seq<Cell>, cohorts: seq<string>, i: nat, j: nat)
    requires |cohorts| == 4 && NoDup(cohorts) && NoDup(Ids(cells)) && i < 8 * |cells| && j < 8 * |cells|
    requires KeyAt(cells, cohorts, i) == KeyAt(cells, cohorts, j)
    ensures i == j
  {
    hide CellId;
    var c, h := i / 8, i / 2 % 4;
    SamePosition(Ids(cells), c, j / 8);
    SamePosition(cohorts, h, j / 2 % 4);
    SameDigits(i, j);
  }

  lemma SameDigits(i: nat, j: nat)
    requires i / 8 == j / 8 && i / 2 % 4 == j / 2 % 4 && i % 2 == j % 2
    ensures i == j
  {
    assert i / 2 == 4 * (i / 8) + i / 2 % 4 && j / 2 == 4 * (j / 8) + j / 2 % 4;
  }

  function Ids(cells: seq<Cell>): seq<string> {
    seq(|cells|, i requires 0 <= i < |cells| => CellId(cells[i]))
  }

  lemma SamePosition<T>(s: seq<T>, i: nat, j: nat)
    requires NoDup(s) && i < |s| && j < |s| && s[i] == s[j]
    ensures i == j
  {
  }

  lemma IdsDistinct(cells: seq<Cell>)
    requires DistinctCellIds(cells)
    ensures NoDup(Ids(cells))
  {
  }

  function AnchorKey(a: Anchor): BlockKey {
    BlockKey(a.cell, a.cohort, a.maxTokens)
  }

  /** Among the 48 assembled anchors no key occurs twice. */
  lemma AnchorKeysDistinct(points: seq<Point>, baselines: Baselines, i: nat, j: nat)
    requires i < j < 48
    ensures |CELLS| == 6 && |COHORTS| == 4
    ensures AnchorKey(AnchorAt(points, baselines, CELLS, COHORTS, i)) != AnchorKey(AnchorAt(points, baselines, CELLS, COHORTS, j))
  {
    hide CellId, LastPoint;
    CohortsDistinct(1);
    CellIdsDistinct();
    IdsDistinct(CELLS);
    if KeyAt(CELLS, COHORTS, i) == KeyAt(CELLS, COHORTS, j) {
      KeysOnce(CELLS, COHORTS, i, j);
      assert false;
    }
    AnchorKeyAt(points, baselines, CELLS, COHORTS, i);
    AnchorKeyAt(points, baselines, CELLS, COHORTS, j);
  }

  lemma AnchorKeyAt(points: seq<Point>, baselines: Baselines, cells: seq<Cell>, cohorts: seq<string>, i: nat)
    requires |cohorts| == 4 && i < 8 * |cells|
    ensures AnchorKey(AnchorAt(points, baselines, cells, cohorts, i)) == KeyAt(cells, cohorts, i)
  {
  }

  /** And each key of the pool is reached. */
  lemma KeysAll(cells: seq<Cell>, cohorts: seq<string>, c: nat, h: nat, m: nat)
    requires |cohorts| == 4 && c < |cells| && h < 4 && m < 2
    ensures 8 * c + 2 * h + m < 8 * |cells|
    ensures KeyAt(cells, cohorts, 8 * c + 2 * h + m) == BlockKey(CellId(cells[c]), cohorts[h], NULL_ANCHOR_MAX_TOKENS[m])
  {
    var i := 8 * c + 2 * h + m;
    assert i / 8 == c && i / 2 == 4 * c + h;
    assert (4 * c + h) % 4 == h;
  }

  /** Of the two caps of a cohort exactly the one matching the cell is cross-checkable, if its baseline
      was published with a positive interval; the other is a new baseline. */
  lemma OneCapCrossCheckable(points: seq<Point>, baselines: Baselines, cells: seq<Cell>, cohorts: seq<string>, c: nat, h: nat)
    requires |cohorts| == 4 && c < |cells| && h < 4
    ensures var low := AnchorAt(points, baselines, cells, cohorts, 8 * c + 2 * h);
      var high := AnchorAt(points, baselines, cells, cohorts, 8 * c + 2 * h + 1);
      var b := BaselineFor(BaselinesOf(baselines, CellId(cells[c])), cohorts[h]);
      var published := b.Some? && b.value.ci > 0.0;
      && (low.newBaseline <==> !published || cells[c].path == CHAT_STREAM)
      && (high.newBaseline <==> !published || cells[c].path != CHAT_STREAM)
  {
    KeysAll(cells, cohorts, c, h, 0);
    KeysAll(cells, cohorts, c, h, 1);
    assert (8 * c + 2 * h) / 8 == c && (8 * c + 2 * h + 1) / 8 == c;
    hide LastPoint, BaselineFor, CellId;
  }

  // ----- The sweep-level header -----

  predicate Drifted(a: Anchor) {
    !a.newBaseline && (a.verdict == Some(WARN) || a.verdict == Some(FAIL))
  }

  function DriftedCount(anchors: seq<Anchor>): nat {
    if anchors == [] then 0
    else DriftedCount(anchors[..|anchors| - 1]) + if Drifted(anchors[|anchors| - 1]) then 1 else 0
  }

  predicate HeaderFired(anchors: seq<Anchor>) {
    DriftedCount(anchors) >= 2
  }

  lemma {:induction false} DriftedOnce(anchors: seq<Anchor>)
    ensures DriftedCount(anchors) >= 1 <==> exists i :: 0 <= i < |anchors| && Drifted(anchors[i])
  {
    if anchors != [] {
      var n := |anchors| - 1;
      DriftedOnce(anchors[..n]);
      if DriftedCount(anchors[..n]) >= 1 {
        var i :| 0 <= i < n && Drifted(anchors[..n][i]);
        assert Drifted(anchors[i]);
      } else {
        forall i | 0 <= i < n ensures !Drifted(anchors[i]) {
          assert !Drifted(anchors[..n][i]);
        }
      }
    }
  }

  /** The header fires if and only if two different cross-checkable anchors drifted. */
  lemma {:induction false} FiresIffTwoDrifted(anchors: seq<Anchor>)
    ensures HeaderFired(anchors) <==> exists i, j :: 0 <= i < j < |anchors| && Drifted(anchors[i]) && Drifted(anchors[j])
  {
    if anchors != [] {
      var n := |anchors| - 1;
      var front := anchors[..n];
      FiresIffTwoDrifted(front);
      DriftedOnce(front);
      if HeaderFired(front) {
        var i, j :| 0 <= i < j < n && Drifted(front[i]) && Drifted(front[j]);
        assert Drifted(anchors[i]) && Drifted(anchors[j]);
      } else if HeaderFired(anchors) {
        var i :| 0 <= i < n && Drifted(front[i]);
        assert Drifted(anchors[i]) && Drifted(anchors[n]);
      } else {
        forall i, j | 0 <= i < j < |anchors| && Drifted(anchors[i]) ensures !Drifted(anchors[j]) {
          assert Drifted(front[i]);
          if j < n { assert !Drifted(front[j]); }
        }
      }
    }
  }

  /** More drifted anchors, position by position, never silence the header; so it depends on nothing
      but the drift of the cross-checkable ones. */
  lemma {:induction false} HeaderMonotone(anchors: seq<Anchor>, others: seq<Anchor>)
    requires |anchors| == |others|
    requires forall i :: 0 <= i < |anchors| && Drifted(anchors[i]) ==> Drifted(others[i])
    ensures DriftedCount(anchors) <= DriftedCount(others)
  {
    if anchors != [] {
      var n := |anchors| - 1;
      assert forall i :: 0 <= i < n && Drifted(anchors[..n][i]) ==> Drifted(others[..n][i]);
      HeaderMonotone(anchors[..n], others[..n]);
    }
  }

  /** Whatever was measured at the keys without a baseline, the header is the same. */
  lemma HeaderIgnoresNewBaselines(
    points: seq<Point>, others: seq<Point>, baselines: Baselines, cells: seq<Cell>, cohorts: seq<string>,
    a: seq<Anchor>, b: seq<Anchor>)
    requires |cohorts| == 4 && |a| == |b| == 8 * |cells|
    requires forall i :: 0 <= i < |a| ==> a[i] == AnchorAt(points, baselines, cells, cohorts, i)
    requires forall i :: 0 <= i < |b| ==> b[i] == AnchorAt(others, baselines, cells, cohorts, i)
    requires forall i :: 0 <= i < |a| && !a[i].newBaseline ==>
      LastPoint(points, KeyAt(cells, cohorts, i)) == LastPoint(others, KeyAt(cells, cohorts, i))
    ensures HeaderFired(a) == HeaderFired(b)
  {
    hide LastPoint, MakeNullAnchor;
    forall i | 0 <= i < |a| ensures Drifted(a[i]) == Drifted(b[i]) {
      SameReference(baselines, cells[i / 8].path, KeyAt(cells, cohorts, i),
        LastPoint(points, KeyAt(cells, cohorts, i)), LastPoint(others, KeyAt(cells, cohorts, i)));
    }
    HeaderMonotone(a, b);
    HeaderMonotone(b, a);
  }

  lemma SameReference(baselines: Baselines, path: string, key: BlockKey, p: Option<Point>, q: Option<Point>)
    ensures AnchorFor(baselines, path, key, p).newBaseline == AnchorFor(baselines, path, key, q).newBaseline
  {
  }

  // ----- What an anchor carries -----

  /** The last of the points with this key. */
  ghost predicate LastWithKey(points: seq<Point>, key: BlockKey, i: nat) {
    i < |points| && KeyOf(points[i]) == key && forall j :: i < j < |points| ==> KeyOf(points[j]) != key
  }

  lemma {:induction false} LastPointIff(points: seq<Point>, key: BlockKey)
    ensures LastPoint(points, key) == None <==> forall i :: 0 <= i < |points| ==> KeyOf(points[i]) != key
    ensures LastPoint(points, key).Some? ==>
      exists i: nat :: LastWithKey(points, key, i) && points[i] == LastPoint(points, key).value
  {
    if points != [] {
      var n := |points| - 1;
      var front := points[..n];
      LastPointIff(front, key);
      if KeyOf(points[n]) == key {
        assert LastWithKey(points, key, n);
      } else if LastPoint(front, key).Some? {
        var i: nat :| LastWithKey(front, key, i) && front[i] == LastPoint(front, key).value;
        forall j | i < j < |points| ensures KeyOf(points[j]) != key {
          assert j < n ==> front[j] == points[j];
        }
        assert LastWithKey(points, key, i);
      } else {
        forall i | 0 <= i < |points| ensures KeyOf(points[i]) != key {
          assert i < n ==> front[i] == points[i];
        }
      }
    }
  }

  /** An anchor carries its key and the latency of its point, and is checked against the published baseline
      of its own cell and cohort. It passes if and only if that latency is within 10 ms of the baseline, or
      within the baseline's interval, or within its own, or within 2.5 % of the baseline; its fraction is the
      signed drift in units of the threshold. Without a latency it fails, without a reference it has no
      verdict. */
  lemma AnchorExactly(baselines: Baselines, path: string, key: BlockKey, point: Option<Point>)
    ensures var a, b := AnchorFor(baselines, path, key, point), Reference(baselines, path, key);
      var p50 := if point.Some? then point.value.p50 else None;
      var ci := if point.Some? && point.value.ci.Some? then point.value.ci.value else 0.0;
      && a.cell == key.cellId && a.cohort == key.cohort && a.maxTokens == key.maxTokens && a.sweep == p50
      && (b == None ==> a.newBaseline && a.verdict == None && a.fraction == None && a.baseline == None && a.ciBaseline == None)
      && (b.Some? ==>
            && b.value in BaselinesOf(baselines, key.cellId) && b.value.name == key.cohort && b.value.ci > 0.0
            && !a.newBaseline && a.baseline == Some(b.value.p50) && a.ciBaseline == Some(b.value.ci)
            && (p50 == None ==> a.verdict == Some(FAIL) && a.fraction == None)
            && (p50.Some? ==> Judges(a, p50.value, b.value.p50, b.value.ci, ci)))
  {
    BaselineForIff(BaselinesOf(baselines, key.cellId), key.cohort);
    var b := Reference(baselines, path, key);
    if b.Some? && point.Some? && point.value.p50.Some? {
      var ci := if point.value.ci.Some? then point.value.ci.value else 0.0;
      JudgesRight(key, point.value.p50.value, b.value.p50, b.value.ci, ci);
    }
    hide Judges, BaselineFor, MakeNullAnchor;
    NoLatencyFails(key, if b.Some? then b.value.p50 else 0.0, if b.Some? then b.value.ci else 0.0);
    if b.Some? {
      AnchorFields(key, if point.Some? then point.value.p50 else None, b.value.p50, b.value.ci,
        if point.Some? && point.value.ci.Some? then point.value.ci.value else 0.0);
      if point.None? || point.value.p50.None? {
        NoLatencyIgnoresInterval(key, b.value.p50, b.value.ci,
          if point.Some? && point.value.ci.Some? then point.value.ci.value else 0.0);
      }
    }
  }

  lemma NoLatencyFails(key: BlockKey, baseline: real, ciBaseline: real)
    ensures MakeNullAnchor(key, None, baseline, ciBaseline, 0.0).verdict == Some(FAIL)
    ensures MakeNullAnchor(key, None, baseline, ciBaseline, 0.0).fraction == None
  {
  }

  lemma NoLatencyIgnoresInterval(key: BlockKey, baseline: real, ciBaseline: real, ci: real)
    ensures MakeNullAnchor(key, None, baseline, ciBaseline, ci) == MakeNullAnchor(key, None, baseline, ciBaseline, 0.0)
  {
  }

  lemma AnchorFields(key: BlockKey, sweep: Option<real>, baseline: real, ciBaseline: real, ciSweep: real)
    ensures var a := MakeNullAnchor(key, sweep, baseline, ciBaseline, ciSweep);
      && a.cell == key.cellId && a.cohort == key.cohort && a.maxTokens == key.maxTokens && a.sweep == sweep
      && !a.newBaseline && a.baseline == Some(baseline) && a.ciBaseline == Some(ciBaseline)
  {
  }

  /** Verdict and fraction of a measured anchor, in its own numbers. */
  ghost predicate Judges(a: Anchor, p50: real, baseline: real, ciBaseline: real, ci: real) {
    var delta, pooled := Abs(p50 - baseline), Pooled(ciBaseline, ci, baseline);
    && (a.verdict == Some(PASS) <==>
          delta <= 10.0 || delta <= ciBaseline || delta <= ci || (baseline > 0.0 && delta <= 0.025 * baseline))
    && (a.verdict == Some(FAIL) <==> delta > 3.0 * pooled)
    && a.verdict.Some? && a.fraction.Some? && a.fraction.value * pooled == p50 - baseline
  }

  lemma JudgesRight(key: BlockKey, p50: real, baseline: real, ciBaseline: real, ci: real)
    ensures Judges(MakeNullAnchor(key, Some(p50), baseline, ciBaseline, ci), p50, baseline, ciBaseline, ci)
  {
    PassesWithinAnyBound(p50, baseline, ciBaseline, ci);
    PooledPositive(ciBaseline, ci, baseline);
    hide Pooled;
    var pooled := Pooled(ciBaseline, ci, baseline);
    DivideAndTimes(p50 - baseline, pooled);
  }

  lemma PooledPositive(ciBaseline: real, ci: real, baseline: real)
    ensures Pooled(ciBaseline, ci, baseline) >= 10.0
  {
  }

  lemma DivideAndTimes(x: real, m: real)
    requires m > 0.0
    ensures x / m * m == x
  {
  }

  /** Which anchors count for the header: those with a reference that were not measured or did not pass. */
  lemma DriftedIff(baselines: Baselines, path: string, key: BlockKey, point: Option<Point>)
    ensures var a := AnchorFor(baselines, path, key, point);
      Drifted(a) <==> Reference(baselines, path, key).Some? && a.verdict != Some(PASS)
  {
    AnchorExactly(baselines, path, key, point);
  }
}

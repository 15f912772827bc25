/** Protocol-crossover search: the first axis point where winner and second overlap. */
module Crossover {
  import opened Common
  import opened Arithmetic
  import opened Cells
  import opened Tables

  // ----- Winner and second -----

  /** Python's order on strings. */
  predicate NameBefore(a: string, b: string) {
    if b == "" then false
    else if a == "" then true
    else a[0] < b[0] || (a[0] == b[0] && NameBefore(a[1..], b[1..]))
  }

  predicate Before(a: Baseline, b: Baseline) {
    a.p50 < b.p50 || (a.p50 == b.p50 && NameBefore(a.name, b.name))
  }

  lemma {:induction false} NamesTotal(a: string, b: string)
    ensures a == b || NameBefore(a, b) || NameBefore(b, a)
  {
    if a != "" && b != "" && a[0] == b[0] {
      NamesTotal(a[1..], b[1..]);
      assert a == [a[0]] + a[1..] && b == [b[0]] + b[1..];
    }
  }

  lemma {:induction false} NamesTransitive(a: string, b: string, c: string)
    requires NameBefore(a, b) && NameBefore(b, c)
    ensures NameBefore(a, c)
  {
    if a != "" && a[0] == b[0] == c[0] {
      NamesTransitive(a[1..], b[1..], c[1..]);
    }
  }

  lemma BeforeTransitive(a: Baseline, b: Baseline, c: Baseline)
    requires Before(a, b) && Before(b, c)
    ensures Before(a, c)
  {
    if a.p50 == b.p50 == c.p50 {
      NamesTransitive(a.name, b.name, c.name);
    }
  }

  /** The position of the first entry in ascending order of latency, then of name. */
  function Least(entries: seq<Baseline>): (k: nat)
    requires entries != []
    ensures k < |entries|
  {
    if |entries| == 1 then 0
    else
      var k := Least(entries[1..]) + 1;
      if Before(entries[k], entries[0]) then k else 0
  }

  ghost predicate DistinctNames(entries: seq<Baseline>) {
    forall i, j :: 0 <= i < j < |entries| ==> entries[i].name != entries[j].name
  }

  lemma {:induction false} LeastComesFirst(entries: seq<Baseline>)
    requires entries != [] && DistinctNames(entries)
    ensures forall i :: 0 <= i < |entries| && i != Least(entries) ==> Before(entries[Least(entries)], entries[i])
  {
    if |entries| > 1 {
      var rest := entries[1..];
      LeastComesFirst(rest);
      var k := Least(rest) + 1;
      NamesTotal(entries[k].name, entries[0].name);
      forall i | 0 <= i < |entries| && i != Least(entries) ensures Before(entries[Least(entries)], entries[i]) {
        if i > 0 {
          assert entries[i] == rest[i - 1];
          if Least(entries) == 0 && i != k {
            BeforeTransitive(entries[0], entries[k], entries[i]);
          }
        }
      }
    }
  }

  /** The first two entries in ascending order, if there are two. */
  function IdentifyWinnerAndSecond(entries: seq<Baseline>): Option<(string, string)> {
    if |entries| < 2 then None
    else
      var k := Least(entries);
      var others := Without(entries, k);
      Some((entries[k].name, others[Least(others)].name))
  }

  ghost predicate Leads(entries: seq<Baseline>, w: int, s: int)
    requires 0 <= w < |entries| && 0 <= s < |entries|
  {
    && (forall i :: 0 <= i < |entries| && i != w ==> Before(entries[w], entries[i]))
    && (forall i :: 0 <= i < |entries| && i != w && i != s ==> Before(entries[s], entries[i]))
  }

  predicate Named(entries: seq<Baseline>, w: int, s: int)
    requires 0 <= w < |entries| && 0 <= s < |entries|
  {
    IdentifyWinnerAndSecond(entries) == Some((entries[w].name, entries[s].name))
  }

  /** The winner comes before every other cohort, the second before all but the winner. */
  lemma WinnerAndSecondLead(entries: seq<Baseline>)
    requires |entries| >= 2 && DistinctNames(entries)
    ensures exists w, s ::
      0 <= w < |entries| && 0 <= s < |entries| && w != s && Leads(entries, w, s) && Named(entries, w, s)
  {
    var w := Least(entries);
    var others := Without(entries, w);
    var m := Least(others);
    var s := if m < w then m else m + 1;
    LeastComesFirst(entries);
    LeastComesFirst(others);
    assert others[m] == entries[s];
    forall i | 0 <= i < |entries| && i != w && i != s ensures Before(entries[s], entries[i]) {
      var j := if i < w then i else i - 1;
      assert others[j] == entries[i];
    }
    assert Leads(entries, w, s) && Named(entries, w, s);
  }

  // ----- The overlap rule -----

  predicate SymmetricMeanInCi(a: Point, b: Point) {
    && a.p50.Some? && b.p50.Some? && a.ci.Some? && b.ci.Some?
    && (var aLow, aHigh := a.p50.value - a.ci.value, a.p50.value + a.ci.value;
        var bLow, bHigh := b.p50.value - b.ci.value, b.p50.value + b.ci.value;
        bLow <= a.p50.value <= bHigh || aLow <= b.p50.value <= aHigh)
  }

  /** Two measured rows overlap if and only if they are no further apart than the wider interval; an
      unmeasured row overlaps nothing. */
  lemma OverlapIsDistance(a: Point, b: Point)
    ensures SymmetricMeanInCi(a, b) <==>
      a.p50.Some? && b.p50.Some? && a.ci.Some? && b.ci.Some?
      && Abs(a.p50.value - b.p50.value) <= Larger(a.ci.value, b.ci.value)
    ensures SymmetricMeanInCi(a, b) == SymmetricMeanInCi(b, a)
  {
  }

  // ----- The search -----

  predicate OverlapAt(table: Table, cell: string, winner: string, second: string, cap: int) {
    var w, s := RowAt(table, cell, winner, cap), RowAt(table, cell, second, cap);
    w.Some? && s.Some? && SymmetricMeanInCi(w.value, s.value)
  }

  /** The first point of the axis with an overlap. */
  function FirstOverlap(table: Table, cell: string, winner: string, second: string, axis: seq<int>): Option<int> {
    if axis == [] then None
    else if OverlapAt(table, cell, winner, second, axis[0]) then Some(axis[0])
    else FirstOverlap(table, cell, winner, second, axis[1..])
  }

  predicate Ascending(axis: seq<int>) {
    forall i, j :: 0 <= i < j < |axis| ==> axis[i] < axis[j]
  }

  /** On an ascending axis it is the least point with an overlap, and there is none if and only if no
      point overlaps. */
  lemma {:induction false} FirstIsLeast(table: Table, cell: string, winner: string, second: string, axis: seq<int>)
    requires Ascending(axis)
    ensures var r := FirstOverlap(table, cell, winner, second, axis);
      && (r == None <==> forall c :: c in axis ==> !OverlapAt(table, cell, winner, second, c))
      && (r.Some? ==> r.value in axis && OverlapAt(table, cell, winner, second, r.value))
      && (r.Some? ==> forall c :: c in axis && OverlapAt(table, cell, winner, second, c) ==> r.value <= c)
  {
    if axis != [] {
      FirstIsLeast(table, cell, winner, second, axis[1..]);
      assert axis == [axis[0]] + axis[1..];
      assert forall c :: c in axis <==> c == axis[0] || c in axis[1..];
    }
  }

  datatype Evidence = AlreadyInconclusive | TooFewCohorts | NotRobust | Overlap(cap: int) | Survives

  datatype Threshold = Threshold(
    cell: string, winner: Option<string>, second: Option<string>, crossover: Option<int>,
    evidence: Evidence, baseVerdict: string)

  predicate IsInconclusive(verdict: string) {
    "inconclusive" <= verdict
  }

  /** The record of one cell. */
  function CellThreshold(
    table: Table, baselines: Baselines, cell: string, verdict: string, axis: seq<int>): (t: Threshold)
    requires axis != []
  {
    if IsInconclusive(verdict) then Threshold(cell, None, None, None, AlreadyInconclusive, verdict)
    else
      match IdentifyWinnerAndSecond(BaselinesOf(baselines, cell))
      case None => Threshold(cell, None, None, None, TooFewCohorts, verdict)
      case Some((winner, second)) =>
        var r := FirstOverlap(table, cell, winner, second, axis);
        var evidence :=
          if r == None then Survives else if r.value == axis[0] then NotRobust else Overlap(r.value);
        Threshold(cell, Some(winner), Some(second), r, evidence, verdict)
  }

  /** What a record says, by the inputs alone. */
  ghost predicate SaysRight(table: Table, entries: seq<Baseline>, cell: string, verdict: string, axis: seq<int>, t: Threshold)
    requires axis != []
  {
    && t.cell == cell && t.baseVerdict == verdict
    && (IsInconclusive(verdict) ==> Nameless(t) && t.evidence == AlreadyInconclusive)
    && (!IsInconclusive(verdict) && |entries| < 2 ==> Nameless(t) && t.evidence == TooFewCohorts)
    && (!IsInconclusive(verdict) && |entries| >= 2 && DistinctNames(entries) ==> NamesLeaders(entries, t))
    && (!IsInconclusive(verdict) && |entries| >= 2 ==> t.winner.Some? && t.second.Some?)
    && (t.winner.Some? && t.second.Some? ==> FindsLeast(table, cell, t.winner.value, t.second.value, axis, t))
  }

  predicate Nameless(t: Threshold) {
    t.winner == None && t.second == None && t.crossover == None
  }

  /** The winner comes before all other cohorts, the second before all but the winner. */
  ghost predicate NamesLeaders(entries: seq<Baseline>, t: Threshold) {
    exists w, s :: 0 <= w < |entries| && 0 <= s < |entries| && w != s && Leads(entries, w, s)
      && t.winner == Some(entries[w].name) && t.second == Some(entries[s].name)
      && FastestTwo(entries, w, s)
  }

  /** The two lowest latencies, the smaller name first among equal ones. */
  ghost predicate FastestTwo(entries: seq<Baseline>, w: int, s: int)
    requires 0 <= w < |entries| && 0 <= s < |entries|
  {
    && entries[w].p50 <= entries[s].p50
    && (entries[w].p50 == entries[s].p50 ==> NameBefore(entries[w].name, entries[s].name))
    && (forall i :: 0 <= i < |entries| && i != w && i != s ==>
          entries[s].p50 <= entries[i].p50
          && (entries[s].p50 == entries[i].p50 ==> NameBefore(entries[s].name, entries[i].name)))
  }

  /** One name is before another if it is the beginning of it, or has the smaller character where they first
      differ. */
  lemma {:induction false} NameBeforeIff(a: string, b: string)
    ensures NameBefore(a, b) <==> (a <= b && a != b) || exists k :: FirstDifference(a, b, k) && a[k] < b[k]
  {
    if a != "" && b != "" && a[0] == b[0] {
      NameBeforeIff(a[1..], b[1..]);
      assert a == [a[0]] + a[1..] && b == [b[0]] + b[1..];
      forall k: nat | FirstDifference(a, b, k) ensures k > 0 && FirstDifference(a[1..], b[1..], k - 1) {
        assert a[1..k] == a[..k][1..] && b[1..k] == b[..k][1..];
        assert a[1..][..k - 1] == a[1..k] && b[1..][..k - 1] == b[1..k];
      }
      forall k: nat | FirstDifference(a[1..], b[1..], k) ensures FirstDifference(a, b, k + 1) {
        assert a[..k + 1] == [a[0]] + a[1..][..k] && b[..k + 1] == [b[0]] + b[1..][..k];
      }
    } else if a != "" && b != "" {
      assert FirstDifference(a, b, 0);
    }
  }

  ghost predicate FirstDifference(a: string, b: string, k: int) {
    0 <= k < |a| && k < |b| && a[..k] == b[..k] && a[k] != b[k]
  }

  /** Where two cohorts overlap, read off the table: both have a row at the cap, both rows are measured, and
      the latencies are no further apart than the wider interval. */
  lemma OverlapAtIff(table: Table, cell: string, winner: string, second: string, cap: int)
    ensures OverlapAt(table, cell, winner, second, cap) <==>
      && cell in table && winner in table[cell] && second in table[cell]
      && cap in table[cell][winner] && cap in table[cell][second]
      && (var a, b := table[cell][winner][cap], table[cell][second][cap];
          && a.p50.Some? && b.p50.Some? && a.ci.Some? && b.ci.Some?
          && Abs(a.p50.value - b.p50.value) <= Larger(a.ci.value, b.ci.value))
  {
    if cell in table && winner in table[cell] && second in table[cell]
      && cap in table[cell][winner] && cap in table[cell][second] {
      OverlapIsDistance(table[cell][winner][cap], table[cell][second][cap]);
    }
  }

  /** The base verdicts without a winner, wrapped ones included. */
  lemma InconclusiveIff(verdict: string)
    ensures IsInconclusive(verdict) <==> exists more :: verdict == "inconclusive" + more
  {
    if IsInconclusive(verdict) {
      assert verdict == "inconclusive" + verdict[12..];
    }
  }

  /** The crossover is the least axis point with an overlap, and the evidence says which kind it is. */
  ghost predicate FindsLeast(table: Table, cell: string, winner: string, second: string, axis: seq<int>, t: Threshold)
    requires axis != []
  {
    && (t.crossover.Some? ==> t.crossover.value in axis && OverlapAt(table, cell, winner, second, t.crossover.value))
    && (Ascending(axis) && t.crossover.Some? ==>
          forall c :: c in axis && OverlapAt(table, cell, winner, second, c) ==> t.crossover.value <= c)
    && (Ascending(axis) ==>
          (t.crossover == None <==> forall c :: c in axis ==> !OverlapAt(table, cell, winner, second, c)))
    && (t.evidence == NotRobust <==> t.crossover == Some(axis[0]))
    && (t.evidence == Survives <==> t.crossover == None)
    && (forall c :: t.evidence == Overlap(c) <==> t.crossover == Some(c) && c != axis[0])
  }

  lemma {:induction false} FirstIsThere(table: Table, cell: string, winner: string, second: string, axis: seq<int>)
    ensures var r := FirstOverlap(table, cell, winner, second, axis);
      r.Some? ==> r.value in axis && OverlapAt(table, cell, winner, second, r.value)
  {
    hide OverlapAt;
    if axis != [] {
      FirstIsThere(table, cell, winner, second, axis[1..]);
    }
  }

  lemma RecordSaysRight(table: Table, baselines: Baselines, cell: string, verdict: string, axis: seq<int>)
    requires axis != []
    ensures SaysRight(table, BaselinesOf(baselines, cell), cell, verdict, axis,
                      CellThreshold(table, baselines, cell, verdict, axis))
  {
    var entries := BaselinesOf(baselines, cell);
    var t := CellThreshold(table, baselines, cell, verdict, axis);
    if !IsInconclusive(verdict) && |entries| >= 2 {
      if DistinctNames(entries) {
        NamesRight(table, baselines, cell, verdict, axis);
      }
      FindsRight(table, cell, t.winner.value, t.second.value, axis, t);
    }
    hide FirstOverlap, OverlapAt, Least, NamesLeaders, FindsLeast;
  }

  lemma NamesRight(table: Table, baselines: Baselines, cell: string, verdict: string, axis: seq<int>)
    requires axis != [] && !IsInconclusive(verdict)
    requires |BaselinesOf(baselines, cell)| >= 2 && DistinctNames(BaselinesOf(baselines, cell))
    ensures NamesLeaders(BaselinesOf(baselines, cell), CellThreshold(table, baselines, cell, verdict, axis))
  {
    hide FirstOverlap, OverlapAt, Least, Leads, Before;
    var entries := BaselinesOf(baselines, cell);
    var t := CellThreshold(table, baselines, cell, verdict, axis);
    WinnerAndSecondLead(entries);
    var w, s :| 0 <= w < |entries| && 0 <= s < |entries| && w != s && Leads(entries, w, s) && Named(entries, w, s);
    assert t.winner == Some(entries[w].name) && t.second == Some(entries[s].name);
    LeadersAreFastest(entries, w, s);
  }

  lemma FindsRight(table: Table, cell: string, winner: string, second: string, axis: seq<int>, t: Threshold)
    requires axis != [] && t.crossover == FirstOverlap(table, cell, winner, second, axis)
    requires t.evidence ==
      if t.crossover == None then Survives else if t.crossover.value == axis[0] then NotRobust else Overlap(t.crossover.value)
    ensures FindsLeast(table, cell, winner, second, axis, t)
  {
    FirstIsThere(table, cell, winner, second, axis);
    if Ascending(axis) {
      FirstIsLeast(table, cell, winner, second, axis);
    }
    hide FirstOverlap, OverlapAt, Ascending;
  }

  lemma LeadersAreFastest(entries: seq<Baseline>, w: int, s: int)
    requires 0 <= w < |entries| && 0 <= s < |entries| && w != s && Leads(entries, w, s)
    ensures FastestTwo(entries, w, s)
  {
    assert Before(entries[w], entries[s]);
  }

  /** `compute_per_cell_crossover`: one record for each verdict, in their order. */
  method ComputePerCellCrossover(
    table: Table, baselines: Baselines, verdicts: seq<(string, string)>, axis: seq<int>)
    returns (out: seq<Threshold>)
    requires axis != []
    ensures |out| == |verdicts|
    ensures forall i :: 0 <= i < |out| ==>
      out[i] == CellThreshold(table, baselines, verdicts[i].0, verdicts[i].1, axis)
    ensures forall i :: 0 <= i < |out| ==>
      SaysRight(table, BaselinesOf(baselines, verdicts[i].0), verdicts[i].0, verdicts[i].1, axis, out[i])
  {
    hide SaysRight, FirstOverlap, OverlapAt, IdentifyWinnerAndSecond;
    out := [];
    for i := 0 to |verdicts|
      invariant |out| == i
      invariant forall j :: 0 <= j < i ==>
        out[j] == CellThreshold(table, baselines, verdicts[j].0, verdicts[j].1, axis)
      invariant forall j :: 0 <= j < i ==>
        SaysRight(table, BaselinesOf(baselines, verdicts[j].0), verdicts[j].0, verdicts[j].1, axis, out[j])
    {
      var (cell, verdict) := verdicts[i];
      RecordSaysRight(table, baselines, cell, verdict, axis);
      if IsInconclusive(verdict) {
        out := out + [Threshold(cell, None, None, None, AlreadyInconclusive, verdict)];
        continue;
      }
      var leaders := IdentifyWinnerAndSecond(BaselinesOf(baselines, cell));
      if leaders == None {
        out := out + [Threshold(cell, None, None, None, TooFewCohorts, verdict)];
        continue;
      }
      var (winner, second) := leaders.value;
      var r := WalkAxis(table, cell, winner, second, axis);
      var evidence := Survives;
      if r.Some? {
        evidence := if r.value == axis[0] then NotRobust else Overlap(r.value);
      }
      out := out + [Threshold(cell, Some(winner), Some(second), r, evidence, verdict)];
    }
  }

  /** The inner loop, with its `continue` and `break`. */
  method WalkAxis(table: Table, cell: string, winner: string, second: string, axis: seq<int>) returns (r: Option<int>)
    ensures r == FirstOverlap(table, cell, winner, second, axis)
  {
    hide SymmetricMeanInCi;
    r := None;
    assert axis[0..] == axis;
    for i := 0 to |axis|
      invariant r == None
      invariant FirstOverlap(table, cell, winner, second, axis)
             == FirstOverlap(table, cell, winner, second, axis[i..])
    {
      assert axis[i..][0] == axis[i] && axis[i..][1..] == axis[i + 1..];
      var w, s := RowAt(table, cell, winner, axis[i]), RowAt(table, cell, second, axis[i]);
      if w == None || s == None {
        continue;
      }
      if !SymmetricMeanInCi(w.value, s.value) {
        continue;
      }
      r := Some(axis[i]);
      break;
    }
  }

  // ----- Two sweeps of one table -----

  lemma AxesNest()
    ensures Ascending(MAX_TOKENS_AXIS) && Ascending(VALIDATE_MAX_TOKENS_AXIS)
    ensures forall c :: c in VALIDATE_MAX_TOKENS_AXIS ==> c in MAX_TOKENS_AXIS
  {
    assert MAX_TOKENS_AXIS[0] == 10 && MAX_TOKENS_AXIS[1] == 50 && MAX_TOKENS_AXIS[5] == 2048;
  }

  /** On the same rows the finer axis never finds its crossover later, finds one whenever the coarser
      does, and finds the same one if it is a point of both. */
  lemma FinerNeverLater(table: Table, cell: string, winner: string, second: string, fine: seq<int>, coarse: seq<int>)
    requires Ascending(fine) && Ascending(coarse) && forall c :: c in coarse ==> c in fine
    ensures var f, v := FirstOverlap(table, cell, winner, second, fine), FirstOverlap(table, cell, winner, second, coarse);
      && (v.Some? ==> f.Some? && f.value <= v.value)
      && (f.Some? && f.value in coarse ==> v == f)
  {
    FirstIsLeast(table, cell, winner, second, fine);
    FirstIsLeast(table, cell, winner, second, coarse);
  }

  /** A publishing sweep never reports a later crossover than a validating one, for any cell. */
  lemma PublishNeverLater(table: Table, baselines: Baselines, cell: string, verdict: string)
    ensures var publish := CellThreshold(table, baselines, cell, verdict, MAX_TOKENS_AXIS);
      var validate := CellThreshold(table, baselines, cell, verdict, VALIDATE_MAX_TOKENS_AXIS);
      && publish.winner == validate.winner && publish.second == validate.second
      && (validate.crossover.Some? ==> publish.crossover.Some? && publish.crossover.value <= validate.crossover.value)
      && (publish.evidence == NotRobust <==> validate.evidence == NotRobust)
  {
    AxesNest();
    hide FirstOverlap, OverlapAt, Ascending;
    if !IsInconclusive(verdict) {
      match IdentifyWinnerAndSecond(BaselinesOf(baselines, cell))
      case None =>
      case Some((winner, second)) =>
        FinerNeverLater(table, cell, winner, second, MAX_TOKENS_AXIS, VALIDATE_MAX_TOKENS_AXIS);
        FirstPointShared(table, cell, winner, second);
    }
  }

  lemma FirstPointShared(table: Table, cell: string, winner: string, second: string)
    ensures FirstOverlap(table, cell, winner, second, MAX_TOKENS_AXIS) == Some(10) <==>
      FirstOverlap(table, cell, winner, second, VALIDATE_MAX_TOKENS_AXIS) == Some(10)
  {
    AxesNest();
    FirstIsLeast(table, cell, winner, second, MAX_TOKENS_AXIS);
    FirstIsLeast(table, cell, winner, second, VALIDATE_MAX_TOKENS_AXIS);
    assert 10 == MAX_TOKENS_AXIS[0] == VALIDATE_MAX_TOKENS_AXIS[0];
    hide FirstOverlap, OverlapAt;
  }

  /** `wide` has the rows of `table` with intervals at least as wide. */
  ghost predicate Widened(table: Table, wide: Table, cell: string) {
    forall cohort, cap :: RowAt(table, cell, cohort, cap).Some? ==> WidenedRow(table, wide, cell, cohort, cap)
  }

  predicate WidenedRow(table: Table, wide: Table, cell: string, cohort: string, cap: int) {
    var a, b := RowAt(table, cell, cohort, cap), RowAt(wide, cell, cohort, cap);
    && a.Some? && b.Some? && a.value.p50 == b.value.p50 && a.value.ci.Some? == b.value.ci.Some?
    && (a.value.ci.Some? ==> a.value.ci.value <= b.value.ci.value)
  }

  /** Less certain measurements never make a verdict survive longer. */
  lemma WideningNeverLater(table: Table, wide: Table, cell: string, winner: string, second: string, axis: seq<int>)
    requires Widened(table, wide, cell) && Ascending(axis)
    ensures var r, q := FirstOverlap(table, cell, winner, second, axis), FirstOverlap(wide, cell, winner, second, axis);
      r.Some? ==> q.Some? && q.value <= r.value
  {
    FirstIsLeast(table, cell, winner, second, axis);
    FirstIsLeast(wide, cell, winner, second, axis);
    var r := FirstOverlap(table, cell, winner, second, axis);
    if r.Some? {
      var c := r.value;
      assert WidenedRow(table, wide, cell, winner, c) && WidenedRow(table, wide, cell, second, c);
      OverlapIsDistance(RowAt(table, cell, winner, c).value, RowAt(table, cell, second, c).value);
      OverlapIsDistance(RowAt(wide, cell, winner, c).value, RowAt(wide, cell, second, c).value);
      assert OverlapAt(wide, cell, winner, second, c);
    }
  }
}

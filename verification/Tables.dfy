/** The per-cell result table the decision layer reads, with latencies as numbers. */
module Tables {
  import opened Common

  /** One (cell, cohort, max_tokens) row: the fields the decisions depend on. */
  datatype Point = Point(
    cell: string, cohort: string, maxTokens: int, nRpcs: nat,
    p50: Option<real>, ci: Option<real>,
    failed: Option<string>, clockAnomaly: bool,
    promptSource: string, blockStart: nat, blockEnd: nat)

  /** Rows by cell, cohort and cap. */
  type Table = map<string, map<string, map<int, Point>>>

  function CapsOf(table: Table, cell: string, cohort: string): map<int, Point> {
    if cell in table && cohort in table[cell] then table[cell][cohort] else map[]
  }

  function RowAt(table: Table, cell: string, cohort: string, cap: int): Option<Point> {
    var caps := CapsOf(table, cell, cohort);
    if cap in caps then Some(caps[cap]) else None
  }

  /** A cohort's published baseline; a cell's baselines are listed in the order of its dictionary. */
  datatype Baseline = Baseline(name: string, p50: real, ci: real)

  type Baselines = map<string, seq<Baseline>>

  function BaselinesOf(baselines: Baselines, cell: string): seq<Baseline> {
    if cell in baselines then baselines[cell] else []
  }

  function BaselineFor(entries: seq<Baseline>, cohort: string): Option<Baseline> {
    if entries == [] then None
    else if entries[0].name == cohort then Some(entries[0])
    else BaselineFor(entries[1..], cohort)
  }

  /** Looking a cohort up finds its entry, and nothing if and only if it has none. */
  lemma {:induction false} BaselineForIff(entries: seq<Baseline>, cohort: string)
    ensures var r := BaselineFor(entries, cohort);
      && (r == None <==> forall i :: 0 <= i < |entries| ==> entries[i].name != cohort)
      && (r.Some? ==> r.value in entries && r.value.name == cohort)
  {
    if entries != [] {
      BaselineForIff(entries[1..], cohort);
    }
  }
}

/** The sweep matrix and the order in which its blocks are dispatched. */
module Cells {
  import opened Common
  import opened Arithmetic
  import opened Numerals

  const REST_HTTPS_EDGE := "rest_https_edge"
  const REST_PLAIN_TCP := "rest_plain_tcp"
  const DEFAULT_GRPC := "default_grpc"
  const TUNED_GRPC_MULTIPLEXED := "tuned_grpc_multiplexed"

  const COHORTS: seq<string> := [REST_HTTPS_EDGE, REST_PLAIN_TCP, DEFAULT_GRPC, TUNED_GRPC_MULTIPLEXED]

  const EMBED := "embed"
  const CHAT_STREAM := "chat_stream"

  datatype Cell = Cell(path: string, concurrency: nat)

  const CELLS: seq<Cell> := [
    Cell(EMBED, 1), Cell(EMBED, 4), Cell(EMBED, 8),
    Cell(CHAT_STREAM, 1), Cell(CHAT_STREAM, 4), Cell(CHAT_STREAM, 8)
  ]

  const MAX_TOKENS_AXIS: seq<int> := [10, 50, 256, 512, 1024, 2048]
  const VALIDATE_MAX_TOKENS_AXIS: seq<int> := [10, 50, 2048]
  const NULL_ANCHOR_MAX_TOKENS: seq<int> := [10, 50]
  const INTERIOR_CAP_MAX_TOKENS: seq<int> := [256, 512, 1024, 2048]

  function CohortsAtConcurrency(c: int): seq<string> {
    if c == 1 then [DEFAULT_GRPC, REST_HTTPS_EDGE, REST_PLAIN_TCP]
    else [DEFAULT_GRPC, TUNED_GRPC_MULTIPLEXED, REST_HTTPS_EDGE, REST_PLAIN_TCP]
  }

  function CellId(cell: Cell): string {
    cell.path + "_c" + NatText(cell.concurrency)
  }

  /** One `(cell, max_tokens)` step of the outer iteration. */
  datatype SweepTuple = SweepTuple(cellId: string, concurrency: nat, maxTokens: int)

  /** One dispatched block. */
  datatype BlockKey = BlockKey(cellId: string, cohort: string, maxTokens: int)

  /** The `(cell, max_tokens)` group a block belongs to. */
  datatype Group = Group(cellId: string, maxTokens: int)

  function GroupOf(k: BlockKey): Group {
    Group(k.cellId, k.maxTokens)
  }

  function TuplesOfCell(cell: Cell, axis: seq<int>): seq<SweepTuple> {
    seq(|axis|, i requires 0 <= i < |axis| => SweepTuple(CellId(cell), cell.concurrency, axis[i]))
  }

  function TuplesOf(cells: seq<Cell>, axis: seq<int>): seq<SweepTuple> {
    if cells == [] then [] else TuplesOfCell(cells[0], axis) + TuplesOf(cells[1..], axis)
  }

  /** The outer and middle loops: every cell with every cap. */
  function MainSweepTuples(axis: seq<int>): seq<SweepTuple> {
    TuplesOf(CELLS, axis)
  }

  function BlocksOfTuple(t: SweepTuple): seq<BlockKey> {
    var cohorts := CohortsAtConcurrency(t.concurrency);
    seq(|cohorts|, i requires 0 <= i < |cohorts| => BlockKey(t.cellId, cohorts[i], t.maxTokens))
  }

  function BlocksOf(tuples: seq<SweepTuple>): seq<BlockKey> {
    if tuples == [] then [] else BlocksOfTuple(tuples[0]) + BlocksOf(tuples[1..])
  }

  /** Cohort-innermost dispatch order. */
  function DispatchOrder(axis: seq<int>): seq<BlockKey> {
    BlocksOf(MainSweepTuples(axis))
  }

  // ----- The loops of the source -----

  method IterMainSweepTuples(axis: seq<int>) returns (out: seq<SweepTuple>)
    ensures out == MainSweepTuples(axis)
  {
    out := TuplesLoop(CELLS, axis);
  }

  method TuplesLoop(cells: seq<Cell>, axis: seq<int>) returns (out: seq<SweepTuple>)
    ensures out == TuplesOf(cells, axis)
  {
    out := [];
    for c := 0 to |cells|
      invariant out + TuplesOf(cells[c..], axis) == TuplesOf(cells, axis)
    {
      ghost var before := out;
      for a := 0 to |axis|
        invariant out == before + TuplesOfCell(cells[c], axis)[..a]
      {
        out := out + [SweepTuple(CellId(cells[c]), cells[c].concurrency, axis[a])];
      }
      assert TuplesOfCell(cells[c], axis)[..|axis|] == TuplesOfCell(cells[c], axis);
      assert cells[c..][0] == cells[c] && cells[c..][1..] == cells[c + 1..];
    }
  }

  method IterBlockDispatchOrder(axis: seq<int>) returns (out: seq<BlockKey>)
    ensures out == DispatchOrder(axis)
  {
    var tuples := IterMainSweepTuples(axis);
    out := BlocksLoop(tuples);
  }

  method BlocksLoop(tuples: seq<SweepTuple>) returns (out: seq<BlockKey>)
    ensures out == BlocksOf(tuples)
  {
    hide CohortsAtConcurrency;
    out := [];
    for t := 0 to |tuples|
      invariant out + BlocksOf(tuples[t..]) == BlocksOf(tuples)
    {
      ghost var before, blocks := out, BlocksOfTuple(tuples[t]);
      var cohorts := CohortsAtConcurrency(tuples[t].concurrency);
      for i := 0 to |cohorts|
        invariant out == before + blocks[..i]
      {
        out := out + [BlockKey(tuples[t].cellId, cohorts[i], tuples[t].maxTokens)];
      }
      assert blocks[..|cohorts|] == blocks;
      assert tuples[t..][0] == tuples[t] && tuples[t..][1..] == tuples[t + 1..];
    }
  }

  // ----- Distinctness of the fixed names -----

  lemma CohortsDistinct(c: int)
    ensures NoDup(CohortsAtConcurrency(c))
    ensures NoDup(COHORTS)
    ensures forall x :: x in CohortsAtConcurrency(c) ==> x in COHORTS
  {
    assert DEFAULT_GRPC[0] == 'd' && TUNED_GRPC_MULTIPLEXED[0] == 't';
    assert REST_HTTPS_EDGE[5] == 'h' && REST_PLAIN_TCP[5] == 'p';
  }

  lemma CellIdTexts()
    ensures CellId(CELLS[0]) == "embed_c1"
    ensures CellId(CELLS[1]) == "embed_c4"
    ensures CellId(CELLS[2]) == "embed_c8"
    ensures CellId(CELLS[3]) == "chat_stream_c1"
    ensures CellId(CELLS[4]) == "chat_stream_c4"
    ensures CellId(CELLS[5]) == "chat_stream_c8"
  {
    assert NatText(1) == "1" && NatText(4) == "4" && NatText(8) == "8";
  }

  lemma CellIdsDistinct()
    ensures DistinctCellIds(CELLS)
  {
    CellIdTexts();
    forall i, j | 0 <= i < j < |CELLS| ensures CellId(CELLS[i]) != CellId(CELLS[j]) {
      var a, b := CellId(CELLS[i]), CellId(CELLS[j]);
      assert a[0] != b[0] || a[|a| - 1] != b[|b| - 1];
    }
  }

  // ----- What the order guarantees -----

  /** Tuples of one group appear once. */
  ghost predicate DistinctGroups(tuples: seq<SweepTuple>) {
    forall i, j :: 0 <= i < j < |tuples| ==>
      tuples[i].cellId != tuples[j].cellId || tuples[i].maxTokens != tuples[j].maxTokens
  }

  ghost predicate DistinctCellIds(cells: seq<Cell>) {
    forall i, j :: 0 <= i < j < |cells| ==> CellId(cells[i]) != CellId(cells[j])
  }

  lemma {:induction false} TuplesDistinct(cells: seq<Cell>, axis: seq<int>)
    requires NoDup(axis) && DistinctCellIds(cells)
    ensures DistinctGroups(TuplesOf(cells, axis))
    ensures forall t :: t in TuplesOf(cells, axis) ==>
      exists c :: 0 <= c < |cells| && t.cellId == CellId(cells[c])
  {
    hide CellId;
    if cells != [] {
      TuplesDistinct(cells[1..], axis);
      var head, rest := TuplesOfCell(cells[0], axis), TuplesOf(cells[1..], axis);
      forall t | t in rest ensures t.cellId != CellId(cells[0])
        && exists c :: 0 <= c < |cells| && t.cellId == CellId(cells[c])
      {
        var c :| 0 <= c < |cells[1..]| && t.cellId == CellId(cells[1..][c]);
        assert cells[1..][c] == cells[c + 1];
      }
      forall t | t in head ensures t.cellId == CellId(cells[0]) {
      }
      DistinctGroupsConcat(head, rest);
    }
  }

  lemma {:induction false} TuplesCount(cells: seq<Cell>, axis: seq<int>)
    ensures |TuplesOf(cells, axis)| == |cells| * |axis|
  {
    if cells != [] {
      TuplesCount(cells[1..], axis);
    }
  }

  lemma DistinctGroupsConcat(s: seq<SweepTuple>, t: seq<SweepTuple>)
    requires DistinctGroups(s) && DistinctGroups(t)
    requires forall x, y :: x in s && y in t ==> x.cellId != y.cellId
    ensures DistinctGroups(s + t)
  {
    var u := s + t;
    forall i, j | 0 <= i < j < |u|
      ensures u[i].cellId != u[j].cellId || u[i].maxTokens != u[j].maxTokens
    {
      if i < |s| <= j {
        assert u[i] in s && u[j] in t;
      }
    }
  }

  lemma BlocksOfTupleDistinct(t: SweepTuple)
    ensures NoDup(BlocksOfTuple(t))
    ensures forall k :: k in BlocksOfTuple(t) ==> GroupOf(k) == Group(t.cellId, t.maxTokens)
  {
    CohortsDistinct(t.concurrency);
  }

  /** Blocks of one group are adjacent: nothing of another group stands between two of them. */
  ghost predicate Contiguous(groups: seq<Group>) {
    forall i, j, k :: 0 <= i < j < k < |groups| && groups[i] == groups[k] ==> groups[j] == groups[i]
  }

  ghost function GroupsOf(keys: seq<BlockKey>): (gs: seq<Group>)
    ensures |gs| == |keys|
  {
    seq(|keys|, i requires 0 <= i < |keys| => GroupOf(keys[i]))
  }

  lemma {:induction false} BlocksDistinctAndContiguous(tuples: seq<SweepTuple>)
    requires DistinctGroups(tuples)
    ensures NoDup(BlocksOf(tuples))
    ensures Contiguous(GroupsOf(BlocksOf(tuples)))
    ensures forall k :: k in BlocksOf(tuples) ==>
      exists i :: 0 <= i < |tuples| && GroupOf(k) == Group(tuples[i].cellId, tuples[i].maxTokens)
  {
    if tuples != [] {
      var head, rest := BlocksOfTuple(tuples[0]), BlocksOf(tuples[1..]);
      BlocksOfTupleDistinct(tuples[0]);
      BlocksDistinctAndContiguous(tuples[1..]);
      forall x, y | x in head && y in rest ensures GroupOf(x) != GroupOf(y) {
        var i :| 0 <= i < |tuples[1..]| && GroupOf(y) == Group(tuples[1..][i].cellId, tuples[1..][i].maxTokens);
        assert tuples[1..][i] == tuples[i + 1];
      }
      NoDupConcat(head, rest);
      ContiguousConcat(head, rest);
      forall k | k in head + rest
        ensures exists i :: 0 <= i < |tuples| && GroupOf(k) == Group(tuples[i].cellId, tuples[i].maxTokens)
      {
        if k in head {
          assert GroupOf(k) == Group(tuples[0].cellId, tuples[0].maxTokens);
        } else {
          var i :| 0 <= i < |tuples[1..]| && GroupOf(k) == Group(tuples[1..][i].cellId, tuples[1..][i].maxTokens);
          assert tuples[1..][i] == tuples[i + 1];
        }
      }
    }
  }

  lemma ContiguousConcat(head: seq<BlockKey>, rest: seq<BlockKey>)
    requires Contiguous(GroupsOf(rest))
    requires forall x, y :: x in head && y in head ==> GroupOf(x) == GroupOf(y)
    requires forall x, y :: x in head && y in rest ==> GroupOf(x) != GroupOf(y)
    ensures Contiguous(GroupsOf(head + rest))
  {
    var gs, rs, n := GroupsOf(head + rest), GroupsOf(rest), |head|;
    forall i, k | 0 <= i < n <= k < |gs| ensures gs[i] != gs[k] {
      assert head[i] in head && rest[k - n] in rest;
    }
    forall i, j | 0 <= i < j < n ensures gs[i] == gs[j] {
      assert head[i] in head && head[j] in head;
    }
    forall i, j, k | 0 <= i < j < k < |gs| && gs[i] == gs[k] ensures gs[j] == gs[i] {
      if n <= i {
        assert gs[i] == rs[i - n] && gs[j] == rs[j - n] && gs[k] == rs[k - n];
      }
    }
  }

  /** For a duplicate-free axis the dispatch order repeats no block and visits each
      `(cell, max_tokens)` group in one contiguous stretch. */
  lemma DispatchOrderSound(axis: seq<int>)
    requires NoDup(axis)
    ensures NoDup(DispatchOrder(axis))
    ensures Contiguous(GroupsOf(DispatchOrder(axis)))
  {
    CellIdsDistinct();
    TuplesDistinct(CELLS, axis);
    BlocksDistinctAndContiguous(MainSweepTuples(axis));
  }

  lemma {:induction false} BlocksOfConcat(s: seq<SweepTuple>, t: seq<SweepTuple>)
    ensures BlocksOf(s + t) == BlocksOf(s) + BlocksOf(t)
  {
    if s == [] {
      assert s + t == t;
    } else {
      assert (s + t)[1..] == s[1..] + t;
      BlocksOfConcat(s[1..], t);
      assert BlocksOfTuple(s[0]) + (BlocksOf(s[1..]) + BlocksOf(t)) == BlocksOf(s) + BlocksOf(t);
    }
  }

  lemma {:induction false} BlockCountUniform(tuples: seq<SweepTuple>, perTuple: nat)
    requires forall t :: t in tuples ==> |CohortsAtConcurrency(t.concurrency)| == perTuple
    ensures |BlocksOf(tuples)| == |tuples| * perTuple
  {
    if tuples != [] {
      assert tuples[0] in tuples;
      BlockCountUniform(tuples[1..], perTuple);
      Distribute(1, |tuples| - 1, perTuple);
    }
  }

  /** Blocks that these cells contribute to each cap. */
  ghost function BlocksPerCap(cells: seq<Cell>): nat {
    if cells == [] then 0
    else |CohortsAtConcurrency(cells[0].concurrency)| + BlocksPerCap(cells[1..])
  }

  lemma EmptyOrder()
    ensures BlocksOf([]) == []
  {
  }

  lemma {:induction false} BlockCount(cells: seq<Cell>, axis: seq<int>)
    ensures |BlocksOf(TuplesOf(cells, axis))| == BlocksPerCap(cells) * |axis|
  {
    hide CohortsAtConcurrency, BlocksOf, CellId;
    if cells == [] {
      EmptyOrder();
    } else {
      var head, rest := TuplesOfCell(cells[0], axis), TuplesOf(cells[1..], axis);
      var mine, others := |CohortsAtConcurrency(cells[0].concurrency)|, BlocksPerCap(cells[1..]);
      BlockCount(cells[1..], axis);
      BlocksOfConcat(head, rest);
      BlockCountUniform(head, mine);
      Commute(|axis|, mine);
      Distribute(mine, others, |axis|);
    }
  }

  lemma BlocksPerCapOfCells()
    ensures BlocksPerCap(CELLS) == 22
  {
    hide CellId;
    calc {
      BlocksPerCap(CELLS);
      3 + BlocksPerCap(CELLS[1..]);
      3 + 4 + BlocksPerCap(CELLS[1..][1..]);
      3 + 4 + 4 + BlocksPerCap(CELLS[1..][1..][1..]);
      3 + 4 + 4 + 3 + BlocksPerCap(CELLS[1..][1..][1..][1..]);
      3 + 4 + 4 + 3 + 4 + BlocksPerCap(CELLS[1..][1..][1..][1..][1..]);
      22;
    }
  }

  /** A sweep has six tuples and twenty-two blocks for every cap on its axis. */
  lemma DispatchOrderSize(axis: seq<int>)
    ensures |MainSweepTuples(axis)| == 6 * |axis|
    ensures |DispatchOrder(axis)| == 22 * |axis|
  {
    hide TuplesOf, BlocksOf, BlocksPerCap;
    TuplesCount(CELLS, axis);
    BlockCount(CELLS, axis);
    BlocksPerCapOfCells();
  }

  // ----- Where a block stands -----

  /** Cells outermost, caps in the order of the axis. */
  lemma {:induction false} TupleAt(cells: seq<Cell>, axis: seq<int>, c: nat, i: nat)
    requires c < |cells| && i < |axis|
    ensures c * |axis| + i < |TuplesOf(cells, axis)|
    ensures TuplesOf(cells, axis)[c * |axis| + i] == SweepTuple(CellId(cells[c]), cells[c].concurrency, axis[i])
  {
    hide CellId;
    var head, rest := TuplesOfCell(cells[0], axis), TuplesOf(cells[1..], axis);
    if c > 0 {
      TupleAt(cells[1..], axis, c - 1, i);
      Distribute(c - 1, 1, |axis|);
      assert (head + rest)[|axis| + ((c - 1) * |axis| + i)] == rest[(c - 1) * |axis| + i];
    }
  }

  /** Cohorts innermost: behind the blocks of the tuples before it, a tuple's blocks come in the order of its
      cohorts. */
  lemma BlockAt(tuples: seq<SweepTuple>, t: nat, h: nat)
    requires t < |tuples| && h < |CohortsAtConcurrency(tuples[t].concurrency)|
    ensures var at := |BlocksOf(tuples[..t])| + h;
      && at < |BlocksOf(tuples)|
      && BlocksOf(tuples)[at]
           == BlockKey(tuples[t].cellId, CohortsAtConcurrency(tuples[t].concurrency)[h], tuples[t].maxTokens)
  {
    hide CohortsAtConcurrency;
    BlocksOfConcat(tuples[..t], tuples[t..]);
    assert tuples[..t] + tuples[t..] == tuples;
    BlocksOfFirst(tuples[t..]);
    hide BlocksOf;
  }

  lemma BlocksOfFirst(tuples: seq<SweepTuple>)
    requires tuples != []
    ensures BlocksOfTuple(tuples[0]) <= BlocksOf(tuples)
  {
  }
}

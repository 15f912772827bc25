/** Restarting a sweep from its checkpoint: equivalence with the uninterrupted run, and coverage. */
module Resume {
  import opened Common
  import opened Cells
  import opened Prompts
  import opened Checkpoint
  import opened Sweep

  /** A measurement without its wall-clock stamps. */
  function Unstamped(m: Measurement): Measurement {
    m.(start := 0, end := 0)
  }

  ghost predicate SameButStamps(a: seq<Measurement>, b: seq<Measurement>) {
    |a| == |b| && forall i :: 0 <= i < |a| ==> Unstamped(a[i]) == Unstamped(b[i])
  }

  /** Same blocks, same order, same prompts, results and outcome; only the stamps may differ. */
  ghost predicate SameRun(a: SweepRun, b: SweepRun) {
    SameButStamps(a.measurements, b.measurements) && a.status == b.status
  }

  /** A run that skips nothing measures the blocks of `order` in order. */
  lemma {:induction false} RunFollowsOrder(inp: Inputs, env: Env, clock: nat -> Stamp, order: seq<BlockKey>,
                                           ms: seq<Measurement>)
    ensures var out := RunFrom(inp, env, clock, {}, order, ms).measurements;
      && |out| <= |ms| + |order|
      && forall j :: |ms| <= j < |out| ==> KeyOf(out[j]) == order[j - |ms|]
    decreases |order|
  {
    hide MeasureSpec;
    if order != [] {
      var m := MeasureSpec(inp, env, order[0], |ms|, clock(|ms|));
      if m.Ok? {
        RunFollowsOrder(inp, env, clock, order[1..], ms + [m.value]);
      }
    }
  }

  lemma {:induction false} SkipCompleted(inp: Inputs, env: Env, clock: nat -> Stamp, done: set<BlockKey>,
                                         order: seq<BlockKey>, k: nat, ms: seq<Measurement>)
    requires k <= |order| && forall i :: 0 <= i < k ==> order[i] in done
    ensures RunFrom(inp, env, clock, done, order, ms) == RunFrom(inp, env, clock, done, order[k..], ms)
    decreases k
  {
    if k == 0 {
      assert order[0..] == order;
    } else {
      SkipCompleted(inp, env, clock, done, order[1..], k - 1, ms);
      assert order[1..][k - 1..] == order[k..];
    }
  }

  lemma {:induction false} NothingCompleted(inp: Inputs, env: Env, clock: nat -> Stamp, done: set<BlockKey>,
                                            order: seq<BlockKey>, ms: seq<Measurement>)
    requires forall x :: x in order ==> x !in done
    ensures RunFrom(inp, env, clock, done, order, ms) == RunFrom(inp, env, clock, {}, order, ms)
    decreases |order|
  {
    hide MeasureSpec;
    if order != [] {
      assert order[0] in order;
      var m := MeasureSpec(inp, env, order[0], |ms|, clock(|ms|));
      if m.Ok? {
        NothingCompleted(inp, env, clock, done, order[1..], ms + [m.value]);
      }
    }
  }

  /** A run passes through each of its own prefixes. */
  lemma {:induction false} PassesThrough(inp: Inputs, env: Env, clock: nat -> Stamp, order: seq<BlockKey>,
                                         ms: seq<Measurement>, k: nat)
    requires |ms| + k <= |RunFrom(inp, env, clock, {}, order, ms).measurements|
    ensures k <= |order|
    ensures RunFrom(inp, env, clock, {}, order, ms) ==
            RunFrom(inp, env, clock, {}, order[k..], RunFrom(inp, env, clock, {}, order, ms).measurements[..|ms| + k])
    decreases k
  {
    hide MeasureSpec;
    var run := RunFrom(inp, env, clock, {}, order, ms);
    if k == 0 {
      assert order[0..] == order && run.measurements[..|ms|] == ms;
    } else {
      RunFollowsOrder(inp, env, clock, order, ms);
      var m := MeasureSpec(inp, env, order[0], |ms|, clock(|ms|)).value;
      PassesThrough(inp, env, clock, order[1..], ms + [m], k - 1);
      assert order[1..][k - 1..] == order[k..];
    }
  }

  lemma MeasureIgnoresClock(inp: Inputs, env: Env, key: BlockKey, iterIdx: nat, s: Stamp, t: Stamp)
    ensures var (a, b) := (MeasureSpec(inp, env, key, iterIdx, s), MeasureSpec(inp, env, key, iterIdx, t));
      if a.Err? then b == a else b.Ok? && Unstamped(a.value) == Unstamped(b.value)
  {
  }

  /** The clock leaves its mark on the stamps and on nothing else. */
  lemma {:induction false} ClockIrrelevant(inp: Inputs, env: Env, clockA: nat -> Stamp, clockB: nat -> Stamp,
                                           done: set<BlockKey>, order: seq<BlockKey>,
                                           a: seq<Measurement>, b: seq<Measurement>)
    requires SameButStamps(a, b)
    ensures SameRun(RunFrom(inp, env, clockA, done, order, a), RunFrom(inp, env, clockB, done, order, b))
    decreases |order|
  {
    hide MeasureSpec;
    if order != [] {
      if order[0] in done {
        ClockIrrelevant(inp, env, clockA, clockB, done, order[1..], a, b);
      } else {
        MeasureIgnoresClock(inp, env, order[0], |a|, clockA(|a|), clockB(|b|));
        var x, y := MeasureSpec(inp, env, order[0], |a|, clockA(|a|)), MeasureSpec(inp, env, order[0], |b|, clockB(|b|));
        if x.Ok? {
          ClockIrrelevant(inp, env, clockA, clockB, done, order[1..], a + [x.value], b + [y.value]);
        }
      }
    }
  }

  /** Crash-resume equivalence. Preload a sweep with the first `k` measurements of the uninterrupted
      run: whatever clock the restart runs under, it ends with the same measurements (keys, order,
      iteration-indexed prompts and results), keeps the preloaded ones untouched, and ends the same way. */
  lemma ResumeEquivalence(inp: Inputs, env: Env, clockA: nat -> Stamp, clockB: nat -> Stamp, k: nat)
    requires NoDup(inp.axis)
    requires k <= |RunSweepSpec(inp, env, clockA, []).measurements|
    ensures var full := RunSweepSpec(inp, env, clockA, []);
      var resumed := RunSweepSpec(inp, env, clockB, full.measurements[..k]);
      && SameRun(full, resumed)
      && full.measurements[..k] <= resumed.measurements
      && (clockA == clockB ==> resumed == full)
  {
    hide MeasureSpec, MainSweepTuples, BlocksOf;
    var order, full := DispatchOrder(inp.axis), RunSweepSpec(inp, env, clockA, []);
    var pre := full.measurements[..k];
    var done := CompletedKeys(pre);
    DispatchOrderSound(inp.axis);
    assert CompletedKeys([]) == {};
    RunFollowsOrder(inp, env, clockA, order, []);
    PrefixKeys(order, full.measurements, k);
    SkipCompleted(inp, env, clockB, done, order, k, pre);
    NothingCompleted(inp, env, clockB, done, order[k..], pre);
    PassesThrough(inp, env, clockA, order, [], k);
    ClockIrrelevant(inp, env, clockA, clockB, {}, order[k..], pre, pre);
  }

  /** The skip set of the first `k` measurements is exactly the first `k` keys. */
  lemma PrefixKeys(order: seq<BlockKey>, ms: seq<Measurement>, k: nat)
    requires NoDup(order) && k <= |ms| <= |order|
    requires forall j :: 0 <= j < |ms| ==> KeyOf(ms[j]) == order[j]
    ensures forall i :: 0 <= i < k ==> order[i] in CompletedKeys(ms[..k])
    ensures forall x :: x in order[k..] ==> x !in CompletedKeys(ms[..k])
  {
    forall i | 0 <= i < k ensures order[i] in CompletedKeys(ms[..k]) {
      assert KeyOf(ms[..k][i]) == order[i];
    }
    forall x | x in order[k..] ensures x !in CompletedKeys(ms[..k]) {
      var j :| k <= j < |order| && order[j] == x;
      forall i | 0 <= i < |ms[..k]| ensures KeyOf(ms[..k][i]) != x {
        assert KeyOf(ms[i]) == order[i];
      }
    }
  }

  // ----- Coverage from any checkpoint -----

  lemma {:induction false} CompletedGrowth(inp: Inputs, env: Env, clock: nat -> Stamp, done: set<BlockKey>,
                                           order: seq<BlockKey>, ms: seq<Measurement>)
    requires NoDup(order) && NoDup(KeysOf(ms)) && done <= CompletedKeys(ms)
    requires forall x :: x in order && x in CompletedKeys(ms) ==> x in done
    ensures var run := RunFrom(inp, env, clock, done, order, ms);
      && NoDup(KeysOf(run.measurements))
      && CompletedKeys(run.measurements) <= CompletedKeys(ms) + Elements(order)
      && (run.status == Completed ==> CompletedKeys(run.measurements) == CompletedKeys(ms) + Elements(order))
    decreases |order|
  {
    hide MeasureSpec;
    if order == [] {
      assert Elements(order) == {};
    } else {
      assert Elements(order) == {order[0]} + Elements(order[1..]);
      if order[0] in done {
        CompletedGrowth(inp, env, clock, done, order[1..], ms);
      } else {
        var m := MeasureSpec(inp, env, order[0], |ms|, clock(|ms|));
        if m.Ok? {
          AddKey(ms, m.value);
          assert order[0] !in CompletedKeys(ms);
          CompletedGrowth(inp, env, clock, done, order[1..], ms + [m.value]);
        }
      }
    }
  }

  lemma AddKey(ms: seq<Measurement>, m: Measurement)
    ensures CompletedKeys(ms + [m]) == CompletedKeys(ms) + {KeyOf(m)}
    ensures NoDup(KeysOf(ms)) && KeyOf(m) !in CompletedKeys(ms) ==> NoDup(KeysOf(ms + [m]))
  {
    var out := ms + [m];
    forall x ensures x in CompletedKeys(out) <==> x in CompletedKeys(ms) + {KeyOf(m)} {
      if x in CompletedKeys(out) {
        var i :| 0 <= i < |out| && KeyOf(out[i]) == x;
        assert i < |ms| ==> KeyOf(ms[i]) == x;
      }
      if x in CompletedKeys(ms) {
        var i :| 0 <= i < |ms| && KeyOf(ms[i]) == x;
        assert KeyOf(out[i]) == x;
      }
      assert KeyOf(out[|ms|]) == KeyOf(m);
    }
    if NoDup(KeysOf(ms)) && KeyOf(m) !in CompletedKeys(ms) {
      forall i, j | 0 <= i < j < |out| ensures KeysOf(out)[i] != KeysOf(out)[j] {
        assert KeysOf(out)[i] == KeysOf(ms)[i];
        assert j < |ms| ==> KeysOf(out)[j] == KeysOf(ms)[j];
        assert KeyOf(ms[i]) in CompletedKeys(ms);
      }
    }
  }

  /** Coverage. From any checkpoint whose blocks are distinct and belong to the matrix, holes and all,
      a sweep that completes holds every block of the dispatch order exactly once: 22 per cap. */
  lemma CoverageFromAnyCheckpoint(inp: Inputs, env: Env, clock: nat -> Stamp, preloaded: seq<Measurement>)
    requires NoDup(inp.axis) && NoDup(KeysOf(preloaded))
    requires CompletedKeys(preloaded) <= Elements(DispatchOrder(inp.axis))
    requires RunSweepSpec(inp, env, clock, preloaded).status == Completed
    ensures var out := RunSweepSpec(inp, env, clock, preloaded).measurements;
      && multiset(KeysOf(out)) == multiset(DispatchOrder(inp.axis))
      && |out| == 22 * |inp.axis|
      && preloaded <= out
  {
    hide MeasureSpec, MainSweepTuples, BlocksOf;
    var order := DispatchOrder(inp.axis);
    var out := RunSweepSpec(inp, env, clock, preloaded).measurements;
    DispatchOrderSound(inp.axis);
    DispatchOrderSize(inp.axis);
    CompletedGrowth(inp, env, clock, CompletedKeys(preloaded), order, preloaded);
    KeysAsSet(out);
    NoDupSameElements(KeysOf(out), order);
  }

  lemma KeysAsSet(ms: seq<Measurement>)
    ensures Elements(KeysOf(ms)) == CompletedKeys(ms)
  {
    forall x ensures x in Elements(KeysOf(ms)) <==> x in CompletedKeys(ms) {
      if x in CompletedKeys(ms) {
        var i :| 0 <= i < |ms| && KeyOf(ms[i]) == x;
        assert KeysOf(ms)[i] == x;
      }
      if x in KeysOf(ms) {
        var i :| 0 <= i < |ms| && KeysOf(ms)[i] == x;
        assert KeyOf(ms[i]) == x;
      }
    }
  }

  /** Holes are felt. A resumed sweep that completes lists the blocks in dispatch order, so that block
      `i` ran with iteration index `i` as in an uninterrupted sweep, exactly when the checkpoint's
      keys are a prefix of that order. */
  lemma OrderKeptIffPrefix(inp: Inputs, env: Env, clock: nat -> Stamp, preloaded: seq<Measurement>)
    requires NoDup(inp.axis)
    requires RunSweepSpec(inp, env, clock, preloaded).status == Completed
    ensures KeysOf(RunSweepSpec(inp, env, clock, preloaded).measurements) == DispatchOrder(inp.axis)
            <==> KeysOf(preloaded) <= DispatchOrder(inp.axis)
  {
    hide MeasureSpec, MainSweepTuples, BlocksOf;
    var order, k := DispatchOrder(inp.axis), |preloaded|;
    var done := CompletedKeys(preloaded);
    var out := RunSweepSpec(inp, env, clock, preloaded).measurements;
    if KeysOf(preloaded) <= order {
      DispatchOrderSound(inp.axis);
      assert forall j :: 0 <= j < k ==> KeyOf(preloaded[j]) == KeysOf(preloaded)[j] == order[j];
      assert preloaded[..k] == preloaded;
      PrefixKeys(order, preloaded, k);
      SkipCompleted(inp, env, clock, done, order, k, preloaded);
      NothingCompleted(inp, env, clock, done, order[k..], preloaded);
      RunFollowsOrder(inp, env, clock, order[k..], preloaded);
      CompletedRunsWholeOrder(inp, env, clock, order[k..], preloaded);
    } else {
      assert KeysOf(out)[..k] == KeysOf(preloaded);
    }
  }

  lemma {:induction false} CompletedRunsWholeOrder(inp: Inputs, env: Env, clock: nat -> Stamp,
                                                   order: seq<BlockKey>, ms: seq<Measurement>)
    requires RunFrom(inp, env, clock, {}, order, ms).status == Completed
    ensures |RunFrom(inp, env, clock, {}, order, ms).measurements| == |ms| + |order|
    decreases |order|
  {
    hide MeasureSpec;
    if order != [] {
      var m := MeasureSpec(inp, env, order[0], |ms|, clock(|ms|)).value;
      CompletedRunsWholeOrder(inp, env, clock, order[1..], ms + [m]);
    }
  }

  /** The published axes never stop a sweep: with loaded corpora every block resolves its inputs, so
      every sweep completes. */
  lemma PublishedAxesComplete(inp: Inputs, env: Env, clock: nat -> Stamp, preloaded: seq<Measurement>)
    requires GoodCorpora(inp.sources)
    requires forall i :: 0 <= i < |inp.axis| ==> inp.axis[i] in MAX_TOKENS_AXIS
    ensures RunSweepSpec(inp, env, clock, preloaded).status == Completed
  {
    hide TuplesOf, BlocksOf;
    forall x | x in DispatchOrder(inp.axis)
      ensures (exists c :: 0 <= c < |CELLS| && x.cellId == CellId(CELLS[c])) && x.maxTokens in MAX_TOKENS_AXIS
    {
      BlockComesFromCell(CELLS, inp.axis, x);
    }
    NeverStops(inp, env, clock, CompletedKeys(preloaded), DispatchOrder(inp.axis), preloaded);
  }

  lemma {:induction false} TupleComesFromCell(cells: seq<Cell>, axis: seq<int>, t: SweepTuple)
    requires t in TuplesOf(cells, axis)
    ensures exists c :: 0 <= c < |cells| && t.cellId == CellId(cells[c])
    ensures t.maxTokens in axis
  {
    if t in TuplesOf(cells[1..], axis) {
      TupleComesFromCell(cells[1..], axis, t);
      var c :| 0 <= c < |cells[1..]| && t.cellId == CellId(cells[1..][c]);
      assert cells[c + 1] == cells[1..][c];
    }
  }

  lemma {:induction false} BlockComesFromTuple(tuples: seq<SweepTuple>, x: BlockKey)
    requires x in BlocksOf(tuples)
    ensures exists t :: t in tuples && x.cellId == t.cellId && x.maxTokens == t.maxTokens
  {
    if x in BlocksOf(tuples[1..]) {
      BlockComesFromTuple(tuples[1..], x);
    } else {
      assert x in BlocksOfTuple(tuples[0]);
      assert tuples[0] in tuples;
    }
  }

  lemma BlockComesFromCell(cells: seq<Cell>, axis: seq<int>, x: BlockKey)
    requires x in BlocksOf(TuplesOf(cells, axis))
    ensures exists c :: 0 <= c < |cells| && x.cellId == CellId(cells[c])
    ensures x.maxTokens in axis
  {
    BlockComesFromTuple(TuplesOf(cells, axis), x);
    var t :| t in TuplesOf(cells, axis) && x.cellId == t.cellId && x.maxTokens == t.maxTokens;
    TupleComesFromCell(cells, axis, t);
  }

  lemma {:induction false} NeverStops(inp: Inputs, env: Env, clock: nat -> Stamp, done: set<BlockKey>,
                                      order: seq<BlockKey>, ms: seq<Measurement>)
    requires GoodCorpora(inp.sources)
    requires forall x :: x in order ==>
      (exists c :: 0 <= c < |CELLS| && x.cellId == CellId(CELLS[c])) && x.maxTokens in MAX_TOKENS_AXIS
    ensures RunFrom(inp, env, clock, done, order, ms).status == Completed
    decreases |order|
  {
    if order != [] {
      assert order[0] in order;
      BlockResolves(inp, env, order[0], |ms|, clock(|ms|));
      hide MeasureSpec;
      if order[0] in done {
        NeverStops(inp, env, clock, done, order[1..], ms);
      } else {
        var m := MeasureSpec(inp, env, order[0], |ms|, clock(|ms|)).value;
        NeverStops(inp, env, clock, done, order[1..], ms + [m]);
      }
    }
  }

  lemma BlockResolves(inp: Inputs, env: Env, x: BlockKey, iterIdx: nat, stamp: Stamp)
    requires GoodCorpora(inp.sources)
    requires (exists c :: 0 <= c < |CELLS| && x.cellId == CellId(CELLS[c])) && x.maxTokens in MAX_TOKENS_AXIS
    ensures MeasureSpec(inp, env, x, iterIdx, stamp).Ok?
  {
    hide CellId, ResolveBlockInputs, BuildMeasurement;
    var c :| 0 <= c < |CELLS| && x.cellId == CellId(CELLS[c]);
    ResolvesExactlyPublishedCaps(c, x.maxTokens, iterIdx, x.cohort, inp.baseSeed, inp.sources, false);
  }
}

/** The REST worker pool: workers drain a queue of request indices and collect samples. */
module WorkerPool {
  import opened Common

  /** A worker between two requests, on one, returned, or ended by its request's exception. */
  datatype Worker = Idle | Busy(index: nat) | Returned | Crashed(index: nat)

  datatype Pool = Pool(queue: seq<nat>, workers: seq<Worker>, collected: seq<nat>)

  predicate Pull(s: Pool, t: Pool, w: nat) {
    && w < |s.workers| && s.workers[w] == Idle && s.queue != []
    && t == Pool(s.queue[1..], s.workers[w := Busy(s.queue[0])], s.collected)
  }

  predicate Return(s: Pool, t: Pool, w: nat) {
    && w < |s.workers| && s.workers[w] == Idle && s.queue == []
    && t == s.(workers := s.workers[w := Returned])
  }

  predicate Collect(s: Pool, t: Pool, w: nat) {
    && w < |s.workers| && s.workers[w].Busy?
    && t == Pool(s.queue, s.workers[w := Idle], s.collected + [s.workers[w].index])
  }

  predicate Crash(s: Pool, t: Pool, w: nat) {
    && w < |s.workers| && s.workers[w].Busy?
    && t == s.(workers := s.workers[w := Crashed(s.workers[w].index)])
  }

  predicate Step(s: Pool, t: Pool, w: nat) {
    Pull(s, t, w) || Return(s, t, w) || Collect(s, t, w) || Crash(s, t, w)
  }

  ghost predicate Next(s: Pool, t: Pool) {
    exists w: nat :: w < |s.workers| && Step(s, t, w)
  }

  function Indices(count: nat): (s: seq<nat>)
    ensures |s| == count
  {
    seq(count, i requires 0 <= i < count => i)
  }

  function Initial(count: nat, concurrency: nat): Pool {
    Pool(Indices(count), seq(concurrency, _ => Idle), [])
  }

  ghost predicate IsRun(count: nat, concurrency: nat, run: seq<Pool>) {
    && run != [] && run[0] == Initial(count, concurrency)
    && forall i :: 0 <= i < |run| - 1 ==> Next(run[i], run[i + 1])
  }

  /** Workers holding index `x`. */
  function HeldCount(workers: seq<Worker>, x: nat): nat {
    if workers == [] then 0 else HeldCount(workers[..|workers| - 1], x) + Holds(workers[|workers| - 1], x)
  }

  function Holds(w: Worker, x: nat): nat {
    if (w.Busy? || w.Crashed?) && w.index == x then 1 else 0
  }

  /** Places where index `x` is: waiting, in a worker's hands, or collected. */
  ghost function Places(s: Pool, x: nat): nat {
    multiset(s.queue)[x] + HeldCount(s.workers, x) + multiset(s.collected)[x]
  }

  function BusyCount(workers: seq<Worker>): (n: nat)
    ensures n <= |workers|
  {
    if workers == [] then 0
    else BusyCount(workers[..|workers| - 1]) + (if workers[|workers| - 1].Busy? then 1 else 0)
  }

  /** Nothing is lost or done twice: queued, held and collected indices are exactly `0..count-1`. */
  ghost predicate Inv(count: nat, concurrency: nat, s: Pool) {
    && |s.workers| == concurrency
    && (forall x: nat :: Places(s, x) == if x < count then 1 else 0)
    && (forall w :: 0 <= w < |s.workers| && s.workers[w] == Returned ==> s.queue == [])
  }

  lemma {:induction false} UpdateHeld(workers: seq<Worker>, w: nat, y: Worker, x: nat)
    requires w < |workers|
    ensures HeldCount(workers[w := y], x) == HeldCount(workers, x) - Holds(workers[w], x) + Holds(y, x)
  {
    var n := |workers| - 1;
    if w == n {
      assert workers[w := y][..n] == workers[..n];
    } else {
      UpdateHeld(workers[..n], w, y, x);
      assert workers[w := y][..n] == workers[..n][w := y];
    }
  }

  lemma StepKeepsPlaces(s: Pool, t: Pool, w: nat, x: nat)
    requires Step(s, t, w)
    ensures Places(t, x) == Places(s, x)
  {
    UpdateHeld(s.workers, w, t.workers[w], x);
    if Pull(s, t, w) {
      assert s.queue == [s.queue[0]] + s.queue[1..];
    }
  }

  lemma StepKeepsInv(count: nat, concurrency: nat, s: Pool, t: Pool, w: nat)
    requires Inv(count, concurrency, s) && Step(s, t, w)
    ensures Inv(count, concurrency, t)
  {
    hide Places;
    forall x: nat ensures Places(t, x) == if x < count then 1 else 0 {
      StepKeepsPlaces(s, t, w, x);
    }
  }

  /** Conservation at every step of every schedule, with at most `concurrency` requests in flight. */
  lemma {:induction false} Conservation(count: nat, concurrency: nat, run: seq<Pool>, i: nat)
    requires IsRun(count, concurrency, run) && i < |run|
    ensures Inv(count, concurrency, run[i])
    ensures BusyCount(run[i].workers) <= concurrency
  {
    hide Step;
    if i == 0 {
      forall x: nat ensures Places(run[0], x) == if x < count then 1 else 0 {
        NothingHeld(run[0].workers, x);
        IndicesDistinct(count);
        NoDupMultiplicity(Indices(count), x);
        assert x < count ==> Indices(count)[x] == x;
      }
    } else {
      Conservation(count, concurrency, run, i - 1);
      assert Next(run[i - 1], run[i - 1 + 1]);
      var w: nat :| w < |run[i - 1].workers| && Step(run[i - 1], run[i], w);
      StepKeepsInv(count, concurrency, run[i - 1], run[i], w);
    }
  }

  lemma {:induction false} NothingHeld(workers: seq<Worker>, x: nat)
    requires forall w :: 0 <= w < |workers| ==> workers[w] == Idle || workers[w] == Returned
    ensures HeldCount(workers, x) == 0
  {
    if workers != [] {
      NothingHeld(workers[..|workers| - 1], x);
    }
  }

  lemma IndicesDistinct(count: nat)
    ensures NoDup(Indices(count))
  {
  }

  // ----- Termination and the finished pool -----

  function WorkerWeight(w: Worker): nat {
    match w
    case Busy(_) => 2
    case Idle => 1
    case Returned => 0
    case Crashed(_) => 0
  }

  function Weight(workers: seq<Worker>): nat {
    if workers == [] then 0 else Weight(workers[..|workers| - 1]) + WorkerWeight(workers[|workers| - 1])
  }

  function Remaining(s: Pool): nat {
    2 * |s.queue| + Weight(s.workers)
  }

  lemma {:induction false} UpdateWeight(workers: seq<Worker>, w: nat, x: Worker)
    requires w < |workers|
    ensures Weight(workers[w := x]) == Weight(workers) - WorkerWeight(workers[w]) + WorkerWeight(x)
  {
    var n := |workers| - 1;
    if w == n {
      assert workers[w := x][..n] == workers[..n];
    } else {
      UpdateWeight(workers[..n], w, x);
      assert workers[w := x][..n] == workers[..n][w := x];
    }
  }

  /** Every step brings the pool closer to its end, one that is no crash by exactly one; and a worker still
      at work always has a step that is no crash. */
  lemma StepsRunOut(s: Pool, t: Pool, w: nat)
    ensures Step(s, t, w) ==> Remaining(t) < Remaining(s)
    ensures CleanStep(s, t, w) ==> Remaining(t) == Remaining(s) - 1
    ensures w < |s.workers| && (s.workers[w].Idle? || s.workers[w].Busy?) ==> exists u :: CleanStep(s, u, w)
  {
    if Step(s, t, w) {
      UpdateWeight(s.workers, w, t.workers[w]);
    }
    if w < |s.workers| {
      if s.workers[w].Idle? {
        if s.queue == [] {
          assert CleanStep(s, s.(workers := s.workers[w := Returned]), w);
        } else {
          assert CleanStep(s, Pool(s.queue[1..], s.workers[w := Busy(s.queue[0])], s.collected), w);
        }
      } else if s.workers[w].Busy? {
        assert CleanStep(s, Pool(s.queue, s.workers[w := Idle], s.collected + [s.workers[w].index]), w);
      }
    }
  }

  /** A step in which no request raises. */
  predicate CleanStep(s: Pool, t: Pool, w: nat) {
    Pull(s, t, w) || Return(s, t, w) || Collect(s, t, w)
  }

  ghost predicate CleanNext(s: Pool, t: Pool) {
    exists w: nat :: w < |s.workers| && CleanStep(s, t, w)
  }

  ghost predicate IsCleanRun(count: nat, concurrency: nat, run: seq<Pool>) {
    && run != [] && run[0] == Initial(count, concurrency)
    && forall i :: 0 <= i < |run| - 1 ==> CleanNext(run[i], run[i + 1])
  }

  predicate AllReturned(workers: seq<Worker>) {
    forall w :: 0 <= w < |workers| ==> workers[w] == Returned
  }

  /** The gather of the workers returns when all of them have: then the queue is drained and the
      collected indices are a permutation of `0..count-1`, whatever the schedule. */
  lemma FinishedPoolCollectedEverything(count: nat, concurrency: nat, run: seq<Pool>)
    requires IsRun(count, concurrency, run) && concurrency >= 1
    requires AllReturned(run[|run| - 1].workers)
    ensures multiset(run[|run| - 1].collected) == multiset(Indices(count))
    ensures run[|run| - 1].queue == []
  {
    var last := run[|run| - 1];
    Conservation(count, concurrency, run, |run| - 1);
    assert last.workers[0] == Returned;
    forall x: nat ensures multiset(last.collected)[x] == multiset(Indices(count))[x] {
      NothingHeld(last.workers, x);
      IndicesDistinct(count);
      NoDupMultiplicity(Indices(count), x);
      assert x < count ==> Indices(count)[x] == x;
      assert Places(last, x) == if x < count then 1 else 0;
    }
  }

  // ----- Runs without exceptions -----

  ghost predicate NoneCrashed(workers: seq<Worker>) {
    forall w :: 0 <= w < |workers| ==> !workers[w].Crashed?
  }

  lemma {:induction false} CleanRunCounts(count: nat, concurrency: nat, run: seq<Pool>, i: nat)
    requires IsCleanRun(count, concurrency, run) && i < |run|
    ensures NoneCrashed(run[i].workers) && |run[i].workers| == concurrency
    ensures Remaining(run[i]) == 2 * count + concurrency - i
  {
    hide Pull, Return, Collect, Remaining;
    if i == 0 {
      StartRemaining(count, concurrency);
    } else {
      CleanRunCounts(count, concurrency, run, i - 1);
      assert CleanNext(run[i - 1], run[i - 1 + 1]);
      var w: nat :| w < |run[i - 1].workers| && CleanStep(run[i - 1], run[i], w);
      StepsRunOut(run[i - 1], run[i], w);
      CleanStepCrashesNone(run[i - 1], run[i], w);
    }
  }

  lemma CleanStepCrashesNone(s: Pool, t: Pool, w: nat)
    requires CleanStep(s, t, w) && NoneCrashed(s.workers)
    ensures NoneCrashed(t.workers) && |t.workers| == |s.workers|
  {
  }

  lemma StartRemaining(count: nat, concurrency: nat)
    ensures Remaining(Initial(count, concurrency)) == 2 * count + concurrency
    ensures NoneCrashed(Initial(count, concurrency).workers)
  {
    IdleWeight(Initial(count, concurrency).workers);
  }

  lemma {:induction false} IdleWeight(workers: seq<Worker>)
    requires forall w :: 0 <= w < |workers| ==> workers[w] == Idle
    ensures Weight(workers) == |workers|
  {
    if workers != [] {
      IdleWeight(workers[..|workers| - 1]);
    }
  }

  lemma CleanRunIsRun(count: nat, concurrency: nat, run: seq<Pool>)
    requires IsCleanRun(count, concurrency, run)
    ensures IsRun(count, concurrency, run)
  {
    forall i | 0 <= i < |run| - 1 ensures Next(run[i], run[i + 1]) {
      assert CleanNext(run[i], run[i + 1]);
      var w: nat :| w < |run[i].workers| && CleanStep(run[i], run[i + 1], w);
      assert Step(run[i], run[i + 1], w);
    }
  }

  ghost predicate CleanStuck(s: Pool) {
    forall t :: !CleanNext(s, t)
  }

  /** Without exceptions every schedule that cannot go on has taken exactly two steps for each request and
      one for each worker; all workers have returned, and every request is collected once. */
  lemma CleanRunFinishes(count: nat, concurrency: nat, run: seq<Pool>)
    requires IsCleanRun(count, concurrency, run) && concurrency >= 1
    requires CleanStuck(run[|run| - 1])
    ensures AllReturned(run[|run| - 1].workers)
    ensures |run| == 2 * count + concurrency + 1
    ensures multiset(run[|run| - 1].collected) == multiset(Indices(count)) && run[|run| - 1].queue == []
  {
    var last := run[|run| - 1];
    CleanRunCounts(count, concurrency, run, |run| - 1);
    forall w: nat | w < |last.workers| ensures last.workers[w] == Returned {
      StepsRunOut(last, last, w);
      if last.workers[w] != Returned {
        var u :| CleanStep(last, u, w);
        assert CleanNext(last, u);
        assert false;
      }
    }
    CleanRunIsRun(count, concurrency, run);
    FinishedPoolCollectedEverything(count, concurrency, run);
    ReturnedWeight(last.workers);
  }

  lemma {:induction false} ReturnedWeight(workers: seq<Worker>)
    requires forall w :: 0 <= w < |workers| ==> workers[w] == Returned
    ensures Weight(workers) == 0
  {
    if workers != [] {
      ReturnedWeight(workers[..|workers| - 1]);
    }
  }
}

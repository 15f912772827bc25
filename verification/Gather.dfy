/** The semaphore-bounded gather of one block as a step system over its slots. */
module SemaphoreGather {

  datatype Slot<R> = Waiting | InFlight | Done(value: R)

  datatype Gathering<R> = Gathering(slots: seq<Slot<R>>, permits: nat)

  /** The RPC driver: the outcome for a seed. */
  type Driver<R> = int -> R

  ghost predicate Acquire<R>(s: Gathering<R>, t: Gathering<R>, i: nat) {
    && i < |s.slots| && s.slots[i] == Waiting && s.permits > 0
    && t == Gathering(s.slots[i := InFlight], s.permits - 1)
  }

  ghost predicate Finish<R>(drive: Driver<R>, base: int, s: Gathering<R>, t: Gathering<R>, i: nat) {
    && i < |s.slots| && s.slots[i] == InFlight
    && t == Gathering(s.slots[i := Done(drive(base + i))], s.permits + 1)
  }

  ghost predicate Next<R>(drive: Driver<R>, base: int, s: Gathering<R>, t: Gathering<R>) {
    exists i: nat :: i < |s.slots| && (Acquire(s, t, i) || Finish(drive, base, s, t, i))
  }

  function Initial<R>(n: nat, concurrency: nat): Gathering<R> {
    Gathering(seq(n, _ => Waiting), concurrency)
  }

  /** Any interleaving, stopped anywhere. */
  ghost predicate IsRun<R>(drive: Driver<R>, base: int, n: nat, concurrency: nat, run: seq<Gathering<R>>) {
    && run != [] && run[0] == Initial(n, concurrency)
    && forall i :: 0 <= i < |run| - 1 ==> Next(drive, base, run[i], run[i + 1])
  }

  function Flying<R>(slots: seq<Slot<R>>): nat {
    if slots == [] then 0 else Flying(slots[..|slots| - 1]) + (if slots[|slots| - 1].InFlight? then 1 else 0)
  }

  function Work<R>(slots: seq<Slot<R>>): nat {
    if slots == [] then 0
    else
      var last := slots[|slots| - 1];
      Work(slots[..|slots| - 1]) + (if last.Waiting? then 2 else if last.InFlight? then 1 else 0)
  }

  lemma {:induction false} UpdateCounts<R>(slots: seq<Slot<R>>, i: nat, x: Slot<R>)
    requires i < |slots|
    requires (slots[i].Waiting? && x.InFlight?) || (slots[i].InFlight? && x.Done?)
    ensures Work(slots[i := x]) == Work(slots) - 1
    ensures Flying(slots[i := x]) == Flying(slots) + (if x.InFlight? then 1 else -1)
  {
    var n := |slots| - 1;
    if i == n {
      assert slots[i := x][..n] == slots[..n];
    } else {
      UpdateCounts(slots[..n], i, x);
      assert slots[i := x][..n] == slots[..n][i := x];
    }
  }

  /** Permits are conserved, and a finished slot holds the outcome of its own seed. */
  ghost predicate Inv<R>(drive: Driver<R>, base: int, n: nat, concurrency: nat, s: Gathering<R>) {
    && |s.slots| == n
    && s.permits + Flying(s.slots) == concurrency
    && forall i :: 0 <= i < n && s.slots[i].Done? ==> s.slots[i].value == drive(base + i)
  }

  lemma StepKeepsInv<R>(drive: Driver<R>, base: int, n: nat, concurrency: nat, s: Gathering<R>, t: Gathering<R>)
    requires Inv(drive, base, n, concurrency, s) && Next(drive, base, s, t)
    ensures Inv(drive, base, n, concurrency, t)
    ensures Work(t.slots) == Work(s.slots) - 1
  {
    var i: nat :| i < |s.slots| && (Acquire(s, t, i) || Finish(drive, base, s, t, i));
    UpdateCounts(s.slots, i, t.slots[i]);
  }

  lemma {:induction false} InitialCounts<R>(slots: seq<Slot<R>>)
    requires forall i :: 0 <= i < |slots| ==> slots[i] == Waiting
    ensures Flying(slots) == 0 && Work(slots) == 2 * |slots|
  {
    if slots != [] {
      InitialCounts(slots[..|slots| - 1]);
    }
  }

  /** In every state of every interleaving at most `concurrency` RPCs are in flight, permits in hand
      and in use add up to the semaphore's count, and each step has used up one unit of the `2 n`
      there were, so no schedule can go on for longer. */
  lemma {:induction false} RunInvariant<R>(drive: Driver<R>, base: int, n: nat, concurrency: nat,
                                           run: seq<Gathering<R>>, i: nat)
    requires IsRun(drive, base, n, concurrency, run) && i < |run|
    ensures Inv(drive, base, n, concurrency, run[i])
    ensures Flying(run[i].slots) <= concurrency
    ensures Work(run[i].slots) == 2 * n - i
  {
    if i == 0 {
      InitialCounts(run[0].slots);
    } else {
      RunInvariant(drive, base, n, concurrency, run, i - 1);
      assert Next(drive, base, run[i - 1], run[i - 1 + 1]);
      StepKeepsInv(drive, base, n, concurrency, run[i - 1], run[i]);
    }
  }

  lemma {:induction false} SomeFlying<R>(slots: seq<Slot<R>>)
    requires Flying(slots) > 0
    ensures exists i :: 0 <= i < |slots| && slots[i] == InFlight
  {
    var n := |slots| - 1;
    if !slots[n].InFlight? {
      SomeFlying(slots[..n]);
      var i :| 0 <= i < n && slots[..n][i] == InFlight;
      assert slots[i] == InFlight;
    }
  }

  /** No schedule gets stuck: with at least one permit, a slot that is not finished leaves a step. */
  lemma NoDeadlock<R>(drive: Driver<R>, base: int, n: nat, concurrency: nat, s: Gathering<R>, i: nat)
    requires Inv(drive, base, n, concurrency, s) && concurrency >= 1
    requires i < n && !s.slots[i].Done?
    ensures exists t :: Next(drive, base, s, t)
  {
    if s.slots[i] == Waiting && s.permits > 0 {
      var t := Gathering(s.slots[i := InFlight], s.permits - 1);
      assert Acquire(s, t, i);
      assert Next(drive, base, s, t);
    } else {
      var j := i;
      if s.slots[i] == Waiting {
        SomeFlying(s.slots);
        j :| 0 <= j < n && s.slots[j] == InFlight;
      }
      var t := Gathering(s.slots[j := Done(drive(base + j))], s.permits + 1);
      assert Finish(drive, base, s, t, j);
      assert Next(drive, base, s, t);
    }
  }

  function Outcomes<R>(drive: Driver<R>, base: int, n: nat): seq<Slot<R>> {
    seq(n, i requires 0 <= i < n => Done(drive(base + i)))
  }

  ghost predicate Stuck<R(!new)>(drive: Driver<R>, base: int, s: Gathering<R>) {
    forall t :: !Next(drive, base, s, t)
  }

  /** Schedule independence: every run that cannot go on has taken exactly `2 n` steps and holds, in
      slot `i`, the outcome for seed `base + i`, with every permit returned. */
  lemma ScheduleIndependent<R(!new)>(drive: Driver<R>, base: int, n: nat, concurrency: nat, run: seq<Gathering<R>>)
    requires IsRun(drive, base, n, concurrency, run) && concurrency >= 1
    requires Stuck(drive, base, run[|run| - 1])
    ensures run[|run| - 1] == Gathering(Outcomes(drive, base, n), concurrency)
    ensures |run| == 2 * n + 1
  {
    var last := run[|run| - 1];
    RunInvariant(drive, base, n, concurrency, run, |run| - 1);
    forall i | 0 <= i < n ensures last.slots[i] == Done(drive(base + i)) {
      if !last.slots[i].Done? {
        NoDeadlock(drive, base, n, concurrency, last, i);
        assert false;
      }
    }
    assert last.slots == Outcomes(drive, base, n);
    AllDoneCounts(last.slots);
  }

  lemma {:induction false} AllDoneCounts<R>(slots: seq<Slot<R>>)
    requires forall i :: 0 <= i < |slots| ==> slots[i].Done?
    ensures Flying(slots) == 0 && Work(slots) == 0
  {
    if slots != [] {
      AllDoneCounts(slots[..|slots| - 1]);
    }
  }
}

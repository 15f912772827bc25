/** The post-hoc check that cohort blocks of one `(cell, max_tokens)` group were not interleaved. */
module Discipline {
  import opened Common
  import opened Cells
  import opened Checkpoint
  import opened Sorting
  import opened Sweep
  import opened Resume

  function StartKey(m: Measurement): real {
    m.start as real
  }

  function MeasurementGroup(m: Measurement): Group {
    Group(m.cellId, m.maxTokens)
  }

  function MeasurementGroups(ms: seq<Measurement>): (gs: seq<Group>)
    ensures |gs| == |ms|
  {
    seq(|ms|, i requires 0 <= i < |ms| => MeasurementGroup(ms[i]))
  }

  /** `verify_iteration_discipline`: one pass over the rows in start order. It answers true exactly
      when no group reappears after another group intervened. */
  method VerifyIterationDiscipline(points: seq<Measurement>) returns (ok: bool)
    ensures ok <==> Contiguous(MeasurementGroups(SortBy(StartKey, points)))
  {
    var sorted := SortBy(StartKey, points);
    ghost var gs := MeasurementGroups(sorted);
    var seen: set<Group> := {};
    var current: Option<Group> := None;
    for i := 0 to |sorted|
      invariant current == if i == 0 then None else Some(gs[i - 1])
      invariant forall g :: g in seen <==> (i > 0 && g != gs[i - 1] && g in gs[..i])
      invariant Contiguous(gs[..i])
    {
      var group := MeasurementGroup(sorted[i]);
      assert gs[..i + 1] == gs[..i] + [group];
      if current == Some(group) {
        assert Contiguous(gs[..i + 1]) by { SameGroupKeeps(gs, i); }
        continue;
      }
      if group in seen {
        ghost var a :| 0 <= a < i && gs[..i][a] == group;
        assert gs[a] == gs[i] && gs[i - 1] != gs[a];
        assert !Contiguous(gs);
        return false;
      }
      if current.Some? {
        seen := seen + {current.value};
      }
      assert group !in gs[..i];
      assert Contiguous(gs[..i + 1]) by { NewGroupKeeps(gs, i); }
      current := Some(group);
    }
    assert gs[..|sorted|] == gs;
    return true;
  }

  lemma SameGroupKeeps(gs: seq<Group>, i: nat)
    requires 0 < i < |gs| && Contiguous(gs[..i]) && gs[i] == gs[i - 1]
    ensures Contiguous(gs[..i + 1])
  {
    var s, t := gs[..i], gs[..i + 1];
    forall a, b, c | 0 <= a < b < c < |t| && t[a] == t[c] ensures t[b] == t[a] {
      if c == i && b < i - 1 {
        assert s[a] == s[i - 1];
        assert s[b] == s[a];
      } else if c < i {
        assert s[a] == s[c] && s[b] == t[b];
      }
    }
  }

  lemma NewGroupKeeps(gs: seq<Group>, i: nat)
    requires i < |gs| && Contiguous(gs[..i]) && gs[i] !in gs[..i]
    ensures Contiguous(gs[..i + 1])
  {
    var s, t := gs[..i], gs[..i + 1];
    forall a, b, c | 0 <= a < b < c < |t| && t[a] == t[c] ensures t[b] == t[a] {
      assert t[a] == s[a] && t[a] in s;
      assert c < i && s[a] == s[c] && s[b] == t[b];
    }
  }

  ghost predicate StampsInOrder(ms: seq<Measurement>) {
    forall i, j :: 0 <= i < j < |ms| ==> ms[i].start <= ms[j].start
  }

  /** Every fresh or prefix-resumed sweep passes the check when its start stamps do not go backwards.
      Ties are allowed: the stamps have one-second resolution. */
  lemma SweepPassesDiscipline(inp: Inputs, env: Env, clock: nat -> Stamp, preloaded: seq<Measurement>)
    requires NoDup(inp.axis) && KeysOf(preloaded) <= DispatchOrder(inp.axis)
    requires StampsInOrder(RunSweepSpec(inp, env, clock, preloaded).measurements)
    ensures Contiguous(MeasurementGroups(SortBy(StartKey, RunSweepSpec(inp, env, clock, preloaded).measurements)))
  {
    hide MeasureSpec, MainSweepTuples, BlocksOf;
    var order, out := DispatchOrder(inp.axis), RunSweepSpec(inp, env, clock, preloaded).measurements;
    var k := |preloaded|;
    DispatchOrderSound(inp.axis);
    SortedIsFixed(StartKey, out);
    assert forall j :: 0 <= j < k ==> KeyOf(preloaded[j]) == KeysOf(preloaded)[j] == order[j];
    assert preloaded[..k] == preloaded;
    PrefixKeys(order, preloaded, k);
    SkipCompleted(inp, env, clock, CompletedKeys(preloaded), order, k, preloaded);
    NothingCompleted(inp, env, clock, CompletedKeys(preloaded), order[k..], preloaded);
    RunFollowsOrder(inp, env, clock, order[k..], preloaded);
    var gs, mine := GroupsOf(order), MeasurementGroups(out);
    forall j | 0 <= j < |out| ensures mine[j] == gs[j] {
      assert KeyOf(out[j]) == order[j];
    }
  }

  // ----- Resuming over holes: the exact condition -----

  /** The blocks of the order that are not done, in order. */
  function Remaining(order: seq<BlockKey>, done: set<BlockKey>): seq<BlockKey> {
    if order == [] then []
    else (if order[0] in done then [] else [order[0]]) + Remaining(order[1..], done)
  }

  lemma {:induction false} RunMeasuresRemaining(inp: Inputs, env: Env, clock: nat -> Stamp, done: set<BlockKey>,
                                                order: seq<BlockKey>, ms: seq<Measurement>)
    requires RunFrom(inp, env, clock, done, order, ms).status == Completed
    ensures KeysOf(RunFrom(inp, env, clock, done, order, ms).measurements) == KeysOf(ms) + Remaining(order, done)
    decreases |order|
  {
    hide MeasureSpec;
    if order != [] {
      if order[0] in done {
        RunMeasuresRemaining(inp, env, clock, done, order[1..], ms);
      } else {
        var m := MeasureSpec(inp, env, order[0], |ms|, clock(|ms|)).value;
        RunMeasuresRemaining(inp, env, clock, done, order[1..], ms + [m]);
        assert KeysOf(ms + [m]) == KeysOf(ms) + [order[0]];
      }
    }
  }

  /** Where in the order the c-th remaining block is. */
  function PlaceOf(order: seq<BlockKey>, done: set<BlockKey>, c: nat): (p: nat)
    requires c < |Remaining(order, done)|
    ensures p < |order| && order[p] == Remaining(order, done)[c]
  {
    if order[0] in done then 1 + PlaceOf(order[1..], done, c)
    else if c == 0 then 0
    else 1 + PlaceOf(order[1..], done, c - 1)
  }

  lemma {:induction false} PlacesAscend(order: seq<BlockKey>, done: set<BlockKey>, c: nat, d: nat)
    requires c < d < |Remaining(order, done)|
    ensures PlaceOf(order, done, c) < PlaceOf(order, done, d)
  {
    if order[0] in done {
      PlacesAscend(order[1..], done, c, d);
    } else if c > 0 {
      PlacesAscend(order[1..], done, c - 1, d - 1);
    }
  }

  lemma RemainingContiguous(order: seq<BlockKey>, done: set<BlockKey>)
    requires Contiguous(GroupsOf(order))
    ensures Contiguous(GroupsOf(Remaining(order, done)))
  {
    var rest, gs := Remaining(order, done), GroupsOf(order);
    var rs := GroupsOf(rest);
    forall i, j, k | 0 <= i < j < k < |rs| && rs[i] == rs[k] ensures rs[j] == rs[i] {
      PlacesAscend(order, done, i, j);
      PlacesAscend(order, done, j, k);
      var p, q, r := PlaceOf(order, done, i), PlaceOf(order, done, j), PlaceOf(order, done, k);
      assert gs[p] == rs[i] && gs[q] == rs[j] && gs[r] == rs[k];
    }
  }

  lemma {:induction false} RemainingMembers(order: seq<BlockKey>, done: set<BlockKey>, x: BlockKey)
    ensures x in Remaining(order, done) <==> x in order && x !in done
  {
    if order != [] {
      RemainingMembers(order[1..], done, x);
      assert order == [order[0]] + order[1..];
    }
  }

  /** A group in both is the last of the first and the first of the second. */
  ghost predicate Meet(s: seq<Group>, t: seq<Group>) {
    forall g :: g in s && g in t ==> s[|s| - 1] == g && t[0] == g
  }

  /** Two contiguous stretches together are contiguous if and only if a group in both is the last of the
      first and the first of the second. */
  lemma ContiguousTogether(s: seq<Group>, t: seq<Group>)
    ensures Contiguous(s + t) <==> Contiguous(s) && Contiguous(t) && Meet(s, t)
  {
    if Contiguous(s + t) {
      TogetherParts(s, t);
    }
    if Contiguous(s) && Contiguous(t) && Meet(s, t) {
      PartsTogether(s, t);
    }
  }

  lemma TogetherParts(s: seq<Group>, t: seq<Group>)
    requires Contiguous(s + t)
    ensures Contiguous(s) && Contiguous(t) && Meet(s, t)
  {
    var u := s + t;
    forall i, j, k | 0 <= i < j < k < |s| && s[i] == s[k] ensures s[j] == s[i] {
      assert u[i] == u[k] && u[j] == s[j];
    }
    forall i, j, k | 0 <= i < j < k < |t| && t[i] == t[k] ensures t[j] == t[i] {
      assert u[|s| + i] == u[|s| + k] && u[|s| + j] == t[j];
    }
    forall g | g in s && g in t ensures s[|s| - 1] == g && t[0] == g {
      var i :| 0 <= i < |s| && s[i] == g;
      var k :| 0 <= k < |t| && t[k] == g;
      assert u[i] == u[|s| + k];
      assert u[|s| - 1] == s[|s| - 1] && u[|s|] == t[0];
    }
  }

  lemma PartsTogether(s: seq<Group>, t: seq<Group>)
    requires Contiguous(s) && Contiguous(t) && Meet(s, t)
    ensures Contiguous(s + t)
  {
    var u := s + t;
    forall i, j, k | 0 <= i < j < k < |u| && u[i] == u[k] ensures u[j] == u[i] {
      if i < |s| <= k {
        assert u[i] in s && u[k] in t;
        var m := k - |s|;
        assert s[|s| - 1] == u[i] == t[0] == t[m];
      }
    }
  }

  /** The first block of the order that is not done. */
  function FirstMissing(order: seq<BlockKey>, done: set<BlockKey>): (r: Option<BlockKey>)
    ensures r == if Remaining(order, done) == [] then None else Some(Remaining(order, done)[0])
  {
    if order == [] then None else if order[0] in done then FirstMissing(order[1..], done) else Some(order[0])
  }

  /** The groups of these keys are contiguous, and each one touched is complete, but possibly the last,
      which then is the first incomplete one of the order. */
  ghost predicate OneOpenGroup(order: seq<BlockKey>, keys: seq<BlockKey>, done: set<BlockKey>) {
    && Contiguous(GroupsOf(keys))
    && forall x, y :: x in keys && y in order && y !in done && GroupOf(x) == GroupOf(y) ==>
         && GroupOf(keys[|keys| - 1]) == GroupOf(y)
         && FirstMissing(order, done).Some? && GroupOf(FirstMissing(order, done).value) == GroupOf(y)
  }

  lemma MeetIfOneOpen(order: seq<BlockKey>, keys: seq<BlockKey>, done: set<BlockKey>)
    requires OneOpenGroup(order, keys, done)
    ensures Meet(GroupsOf(keys), GroupsOf(Remaining(order, done)))
  {
    hide Contiguous, Remaining;
    var rest := Remaining(order, done);
    var s, t := GroupsOf(keys), GroupsOf(rest);
    forall g | g in s && g in t ensures s[|s| - 1] == g && t[0] == g {
      var i :| 0 <= i < |s| && s[i] == g;
      var k :| 0 <= k < |t| && t[k] == g;
      RemainingMembers(order, done, rest[k]);
      assert keys[i] in keys && rest[k] in rest && GroupOf(keys[i]) == GroupOf(rest[k]);
    }
  }

  lemma OneOpenIfMeet(order: seq<BlockKey>, keys: seq<BlockKey>, done: set<BlockKey>)
    requires Contiguous(GroupsOf(keys)) && Meet(GroupsOf(keys), GroupsOf(Remaining(order, done)))
    ensures OneOpenGroup(order, keys, done)
  {
    hide Contiguous, Remaining, FirstMissing;
    var rest := Remaining(order, done);
    var s, t := GroupsOf(keys), GroupsOf(rest);
    forall x, y | x in keys && y in order && y !in done && GroupOf(x) == GroupOf(y)
      ensures GroupOf(keys[|keys| - 1]) == GroupOf(y) && rest != [] && GroupOf(rest[0]) == GroupOf(y)
    {
      RemainingMembers(order, done, y);
      var i :| 0 <= i < |keys| && keys[i] == x;
      var k :| 0 <= k < |rest| && rest[k] == y;
      assert s[i] in s && t[k] in t && s[i] == t[k];
    }
  }

  lemma OpenGroupIff(order: seq<BlockKey>, keys: seq<BlockKey>, done: set<BlockKey>)
    requires Contiguous(GroupsOf(order))
    ensures Contiguous(GroupsOf(keys + Remaining(order, done))) <==> OneOpenGroup(order, keys, done)
  {
    var rest := Remaining(order, done);
    assert GroupsOf(keys + rest) == GroupsOf(keys) + GroupsOf(rest);
    ContiguousTogether(GroupsOf(keys), GroupsOf(rest));
    RemainingContiguous(order, done);
    if OneOpenGroup(order, keys, done) {
      MeetIfOneOpen(order, keys, done);
    }
    hide Contiguous, OneOpenGroup, Remaining, GroupsOf;
    if Contiguous(GroupsOf(keys) + GroupsOf(rest)) {
      OneOpenIfMeet(order, keys, done);
    }
  }

  /** Exactly when a resumed sweep passes its own check. For a sweep that completes with start stamps in
      order, whatever was preloaded: the check passes if and only if the preloaded groups are contiguous,
      and every group they touch is complete but possibly the last, which then is the first incomplete
      group of the order. Holes of whole groups pass. */
  lemma PassesDisciplineIff(inp: Inputs, env: Env, clock: nat -> Stamp, preloaded: seq<Measurement>)
    requires NoDup(inp.axis)
    requires RunSweepSpec(inp, env, clock, preloaded).status == Completed
    requires StampsInOrder(RunSweepSpec(inp, env, clock, preloaded).measurements)
    ensures Contiguous(MeasurementGroups(SortBy(StartKey, RunSweepSpec(inp, env, clock, preloaded).measurements)))
      <==> OneOpenGroup(DispatchOrder(inp.axis), KeysOf(preloaded), CompletedKeys(preloaded))
  {
    hide MeasureSpec, MainSweepTuples, BlocksOf, OneOpenGroup, Contiguous;
    var order, out := DispatchOrder(inp.axis), RunSweepSpec(inp, env, clock, preloaded).measurements;
    DispatchOrderSound(inp.axis);
    SortedIsFixed(StartKey, out);
    RunMeasuresRemaining(inp, env, clock, CompletedKeys(preloaded), order, preloaded);
    OpenGroupIff(order, KeysOf(preloaded), CompletedKeys(preloaded));
    assert MeasurementGroups(out) == GroupsOf(KeysOf(out));
  }

  // ----- The hole a torn log leaves -----

  /** The first `m` blocks without the `k`-th: the record of block `k` was lost to a glued line. */
  function WithoutOne(order: seq<BlockKey>, k: nat, m: nat): (keys: seq<BlockKey>)
    requires k + 1 < m <= |order|
    ensures |keys| == m - 1
  {
    order[..k] + order[k + 1..m]
  }

  lemma WithoutOneAt(order: seq<BlockKey>, k: nat, m: nat, i: nat)
    requires k + 1 < m <= |order| && i < m - 1
    ensures WithoutOne(order, k, m)[i] == order[if i < k then i else i + 1]
  {
  }

  lemma {:induction false} FirstMissingAt(order: seq<BlockKey>, done: set<BlockKey>, k: nat)
    requires k < |order| && order[k] !in done && forall i :: 0 <= i < k ==> order[i] in done
    ensures FirstMissing(order, done) == Some(order[k])
  {
    if k > 0 {
      FirstMissingAt(order[1..], done, k - 1);
    }
  }

  ghost predicate InCompany(order: seq<BlockKey>, k: nat)
    requires k < |order|
  {
    (k > 0 && GroupOf(order[k - 1]) == GroupOf(order[k])) || (k + 1 < |order| && GroupOf(order[k + 1]) == GroupOf(order[k]))
  }

  /** No block is alone in its group. */
  lemma {:induction false} BlocksInCompany(tuples: seq<SweepTuple>, k: nat)
    requires k < |BlocksOf(tuples)|
    ensures InCompany(BlocksOf(tuples), k)
  {
    var block, rest := BlocksOfTuple(tuples[0]), BlocksOf(tuples[1..]);
    ThreeBlocks(tuples[0]);
    assert BlocksOf(tuples) == block + rest;
    hide BlocksOfTuple, BlocksOf;
    if k < |block| {
      var j := if k == 0 then 1 else k - 1;
      assert (block + rest)[k] == block[k] && (block + rest)[j] == block[j];
      assert block[k] in block && block[j] in block;
    } else {
      BlocksInCompany(tuples[1..], k - |block|);
      assert forall i :: 0 <= i < |rest| ==> (block + rest)[|block| + i] == rest[i];
    }
  }

  lemma ThreeBlocks(t: SweepTuple)
    ensures |BlocksOfTuple(t)| >= 3
    ensures forall x :: x in BlocksOfTuple(t) ==> GroupOf(x) == Group(t.cellId, t.maxTokens)
  {
  }

  lemma WithoutOneMembers(order: seq<BlockKey>, k: nat, m: nat, i: nat)
    requires NoDup(order) && k + 1 < m <= |order| && i < |order|
    ensures order[i] in WithoutOne(order, k, m) <==> i < m && i != k
  {
    var keys := WithoutOne(order, k, m);
    if i < m && i != k {
      WithoutOneAt(order, k, m, if i < k then i else i - 1);
    } else {
      forall j | 0 <= j < |keys| ensures keys[j] != order[i] {
        WithoutOneAt(order, k, m, j);
      }
    }
  }

  ghost predicate DoneWithoutOne(order: seq<BlockKey>, k: nat, m: nat, done: set<BlockKey>)
    requires k + 1 < m <= |order|
  {
    forall x :: x in done <==> x in WithoutOne(order, k, m)
  }

  lemma LostBlockFails(order: seq<BlockKey>, k: nat, m: nat, done: set<BlockKey>)
    requires NoDup(order) && k + 1 < m <= |order| && InCompany(order, k)
    requires DoneWithoutOne(order, k, m, done) && OneOpenGroup(order, WithoutOne(order, k, m), done)
    ensures GroupOf(order[k]) == GroupOf(order[m - 1])
  {
    hide Contiguous, FirstMissing;
    var near := if k > 0 && GroupOf(order[k - 1]) == GroupOf(order[k]) then k - 1 else k + 1;
    WithoutOneAt(order, k, m, m - 2);
    WithoutOneMembers(order, k, m, near);
    WithoutOneMembers(order, k, m, k);
    hide WithoutOne;
    assert order[near] in WithoutOne(order, k, m) && order[k] in order;
  }

  lemma LostBlockPasses(order: seq<BlockKey>, k: nat, m: nat, done: set<BlockKey>)
    requires NoDup(order) && Contiguous(GroupsOf(order)) && k + 1 < m <= |order|
    requires DoneWithoutOne(order, k, m, done) && GroupOf(order[k]) == GroupOf(order[m - 1])
    ensures OneOpenGroup(order, WithoutOne(order, k, m), done)
  {
    hide Contiguous, WithoutOne, FirstMissing;
    var keys := WithoutOne(order, k, m);
    WithoutOneAt(order, k, m, m - 2);
    forall i | 0 <= i <= k ensures order[i] in done <==> i != k {
      WithoutOneMembers(order, k, m, i);
    }
    FirstMissingAt(order, done, k);
    WithoutOneContiguous(order, k, m);
    forall x, y | x in keys && y in order && y !in done && GroupOf(x) == GroupOf(y)
      ensures GroupOf(order[m - 1]) == GroupOf(y)
    {
      var p :| 0 <= p < |keys| && keys[p] == x;
      WithoutOneAt(order, k, m, p);
      var q :| 0 <= q < |order| && order[q] == y;
      WithoutOneMembers(order, k, m, q);
      if q != k {
        BetweenSame(order, if p < k then p else p + 1, m - 1, q);
      }
    }
  }

  lemma BetweenSame(order: seq<BlockKey>, p: nat, j: nat, q: nat)
    requires Contiguous(GroupsOf(order)) && p <= j < q < |order| && GroupOf(order[p]) == GroupOf(order[q])
    ensures GroupOf(order[j]) == GroupOf(order[p])
  {
    var gs := GroupsOf(order);
    assert gs[p] == gs[q] && gs[j] == GroupOf(order[j]);
  }

  lemma LostBlockIff(order: seq<BlockKey>, k: nat, m: nat, done: set<BlockKey>)
    requires NoDup(order) && Contiguous(GroupsOf(order)) && k + 1 < m <= |order| && InCompany(order, k)
    requires DoneWithoutOne(order, k, m, done)
    ensures OneOpenGroup(order, WithoutOne(order, k, m), done) <==> GroupOf(order[k]) == GroupOf(order[m - 1])
  {
    hide OneOpenGroup, Contiguous, DoneWithoutOne, InCompany, WithoutOne;
    if OneOpenGroup(order, WithoutOne(order, k, m), done) {
      LostBlockFails(order, k, m, done);
    }
    if GroupOf(order[k]) == GroupOf(order[m - 1]) {
      LostBlockPasses(order, k, m, done);
    }
  }

  lemma WithoutOneContiguous(order: seq<BlockKey>, k: nat, m: nat)
    requires Contiguous(GroupsOf(order)) && k + 1 < m <= |order|
    ensures Contiguous(GroupsOf(WithoutOne(order, k, m)))
  {
    var gs, hs := GroupsOf(order), GroupsOf(WithoutOne(order, k, m));
    forall i | 0 <= i < |hs| ensures hs[i] == gs[if i < k then i else i + 1] {
      WithoutOneAt(order, k, m, i);
    }
  }

  /** When the hole is one block lost to a glued line, the resumed sweep passes if and only if the block's
      group is also that of the last block loaded. */
  lemma LostBlockPassesIff(inp: Inputs, env: Env, clock: nat -> Stamp, preloaded: seq<Measurement>, k: nat, m: nat)
    requires NoDup(inp.axis) && k + 1 < m <= |DispatchOrder(inp.axis)|
    requires KeysOf(preloaded) == WithoutOne(DispatchOrder(inp.axis), k, m)
    requires RunSweepSpec(inp, env, clock, preloaded).status == Completed
    requires StampsInOrder(RunSweepSpec(inp, env, clock, preloaded).measurements)
    ensures var order := DispatchOrder(inp.axis);
      Contiguous(MeasurementGroups(SortBy(StartKey, RunSweepSpec(inp, env, clock, preloaded).measurements)))
      <==> GroupOf(order[k]) == GroupOf(order[m - 1])
  {
    hide MeasureSpec, MainSweepTuples, BlocksOf, OneOpenGroup, Contiguous, RunSweepSpec, StampsInOrder, WithoutOne;
    PassesDisciplineIff(inp, env, clock, preloaded);
    DispatchOrderSound(inp.axis);
    BlocksInCompany(MainSweepTuples(inp.axis), k);
    KeysAsSet(preloaded);
    assert forall x :: x in CompletedKeys(preloaded) <==> x in Elements(KeysOf(preloaded));
    LostBlockIff(DispatchOrder(inp.axis), k, m, CompletedKeys(preloaded));
  }

  /** An instance: the first block and one of another group preloaded. The completed sweep fails the check
      although no block ran twice. */
  lemma HoleBreaksDiscipline(inp: Inputs, env: Env, clock: nat -> Stamp, preloaded: seq<Measurement>, j: nat)
    requires NoDup(inp.axis) && 1 < j < |DispatchOrder(inp.axis)|
    requires var order := DispatchOrder(inp.axis);
      GroupOf(order[1]) == GroupOf(order[0]) != GroupOf(order[j]) && KeysOf(preloaded) == [order[0], order[j]]
    requires RunSweepSpec(inp, env, clock, preloaded).status == Completed
    requires StampsInOrder(RunSweepSpec(inp, env, clock, preloaded).measurements)
    ensures !Contiguous(MeasurementGroups(SortBy(StartKey, RunSweepSpec(inp, env, clock, preloaded).measurements)))
  {
    hide MeasureSpec, MainSweepTuples, BlocksOf, Contiguous, RunSweepSpec, StampsInOrder;
    var order, keys := DispatchOrder(inp.axis), KeysOf(preloaded);
    PassesDisciplineIff(inp, env, clock, preloaded);
    DispatchOrderSound(inp.axis);
    KeysAsSet(preloaded);
    assert keys[0] in keys && order[1] in order;
    assert order[1] in CompletedKeys(preloaded) <==> order[1] in Elements(keys);
  }
}

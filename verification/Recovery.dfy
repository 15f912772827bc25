/** The preemption-recovering dispatcher: gather a block, refresh the driver when the endpoint died,
    stay within a budget. Everything the network and the restarted server do is adversarial. */
module Recovery {
  import opened Common
  import opened Arithmetic
  import opened Errors

  /** One slot of a gathered block. */
  datatype RpcResult =
    | Failed(exn: Exn)
    | Answer(success: bool, wallMs: Option<real>, failureReason: Option<string>, metadata: map<string, string>)

  predicate IsDeathResult(r: RpcResult) {
    match r
    case Failed(e) => IsEndpointDeath(e)
    case Answer(success, _, reason, _) => !success && IsEndpointDeathReason(reason)
  }

  predicate BlockFailedWithEndpointDeath(results: seq<RpcResult>, n: int) {
    n > 0 && |results| == n && forall i :: 0 <= i < |results| ==> IsDeathResult(results[i])
  }

  predicate BlockHasEndpointDeath(results: seq<RpcResult>) {
    exists i :: 0 <= i < |results| && IsDeathResult(results[i])
  }

  /** How a gathered round looks to the recovery loop. */
  datatype Kind = Whole | Partial | Clean

  function Classify(results: seq<RpcResult>, n: int): Kind {
    if BlockFailedWithEndpointDeath(results, n) then Whole
    else if BlockHasEndpointDeath(results) then Partial
    else Clean
  }

  /** `canRefresh`: a `make_driver` was supplied. `anchor`: the anchor dispatcher, which catches only
      gRPC and httpx errors per RPC. */
  datatype Config = Config(budget: int, threshold: int, canRefresh: bool, anchor: bool)

  /** The environment: what RPC `slot` of the `round`-th gather brings, and whether the k-th
      `make_driver` call raises. */
  datatype World = World(rpc: (nat, nat) -> RpcResult, make: nat -> Option<Exn>)

  function Gather(w: World, round: nat, n: int): (results: seq<RpcResult>)
    ensures |results| == if n > 0 then n else 0
  {
    seq(if n > 0 then n else 0, slot requires slot >= 0 => w.rpc(round, slot))
  }

  /** The anchor's gather lets other exceptions out. */
  predicate Escapes(cfg: Config, results: seq<RpcResult>) {
    cfg.anchor && exists i :: 0 <= i < |results| && results[i].Failed? && results[i].exn.kind.Plain?
  }

  /** How a dispatcher call ends. */
  datatype End = Normal(results: seq<RpcResult>) | BudgetExhausted | RecoveryFailed(exn: Exn) | Escaped

  /** The dispatcher's counters, with what an observer has seen of the run. */
  datatype State = State(
    events: nat, streak: int,
    calls: nat, rounds: nat, refreshes: nat, exhausted: nat, history: seq<Kind>)

  const START := State(0, 0, 0, 0, 0, 0, [])

  function NextStreak(cfg: Config, streak: int, k: Kind): int {
    match k
    case Whole => 0
    case Clean => 0
    case Partial => if streak + 1 >= cfg.threshold then 0 else streak + 1
  }

  predicate Triggers(cfg: Config, streak: int, k: Kind) {
    k == Whole || (k == Partial && streak + 1 >= cfg.threshold)
  }

  // ----- What the events of a call do to the state -----

  function Called(st: State): State {
    st.(calls := st.calls + 1, rounds := st.rounds + 1)
  }

  function Seen(cfg: Config, st: State, k: Kind): State {
    st.(streak := NextStreak(cfg, st.streak, k), history := st.history + [k])
  }

  function Tried(st: State): State {
    st.(refreshes := st.refreshes + 1)
  }

  function Renewed(st: State): State {
    st.(events := st.events + 1, rounds := st.rounds + 1)
  }

  function Exhausted(st: State): State {
    st.(exhausted := st.exhausted + 1)
  }

  /** The recovery loop, from a gathered round on. */
  function Recover(cfg: Config, w: World, n: int, st: State, results: seq<RpcResult>): (State, End)
    decreases if cfg.budget > st.events then cfg.budget - st.events else 0
  {
    if !cfg.canRefresh then (st, Normal(results))
    else
      var k := Classify(results, n);
      var seen := Seen(cfg, st, k);
      if !Triggers(cfg, st.streak, k) then (seen, Normal(results))
      else if st.events >= cfg.budget then (Exhausted(seen), BudgetExhausted)
      else
        var tried := Tried(seen);
        match w.make(seen.refreshes)
        case Some(e) => (tried, RecoveryFailed(e))
        case None =>
          var again := Gather(w, tried.rounds, n);
          var next := Renewed(tried);
          if Escapes(cfg, again) then (next, Escaped) else Recover(cfg, w, n, next, again)
  }

  function Dispatch(cfg: Config, w: World, n: int, st: State): (State, End) {
    var results := Gather(w, st.rounds, n);
    var st1 := Called(st);
    if Escapes(cfg, results) then (st1, Escaped) else Recover(cfg, w, n, st1, results)
  }

  // ----- What the counters mean -----

  /** `make_driver` calls among the first `k` that succeeded. */
  ghost function Successes(w: World, k: nat): nat {
    if k == 0 then 0 else Successes(w, k - 1) + (if w.make(k - 1).None? then 1 else 0)
  }

  /** Partial-death rounds at the end of a history. */
  ghost function Trailing(h: seq<Kind>): nat {
    if h == [] || h[|h| - 1] != Partial then 0 else 1 + Trailing(h[..|h| - 1])
  }

  /** A round calls for a refresh when the whole block died, or when it completes another
      `threshold` consecutive partial deaths. Stated on the history alone. */
  ghost predicate CallsForRefresh(threshold: int, h: seq<Kind>)
    requires h != [] && threshold >= 1
  {
    h[|h| - 1] == Whole || (h[|h| - 1] == Partial && Trailing(h) % threshold == 0)
  }

  ghost function RefreshCalls(threshold: int, h: seq<Kind>): nat
    requires threshold >= 1
  {
    if h == [] then 0
    else RefreshCalls(threshold, h[..|h| - 1]) + (if CallsForRefresh(threshold, h) then 1 else 0)
  }

  /** What every dispatcher call keeps. */
  ghost predicate Inv(cfg: Config, w: World, st: State) {
    // The event counter is the number of successful refreshes and stays within the budget.
    && st.events == Successes(w, st.refreshes)
    && (st.events == 0 || st.events <= cfg.budget)
    // Every gather is a call or a successful refresh.
    && st.rounds == st.calls + st.events
    && (cfg.threshold >= 1 ==> StreakInv(cfg, st))
  }

  ghost predicate StreakInv(cfg: Config, st: State)
    requires cfg.threshold >= 1
  {
    // The streak counter is the current run of partial deaths, counted modulo the threshold.
    && st.streak == Trailing(st.history) % cfg.threshold
    // Refreshes are attempted exactly when the history calls for one and the budget allows it.
    && RefreshCalls(cfg.threshold, st.history) == st.refreshes + st.exhausted
  }

  lemma ModStep(t: nat, threshold: nat)
    requires threshold >= 1
    ensures var r := t % threshold;
      (t + 1) % threshold == if r + 1 >= threshold then 0 else r + 1
  {
    var q, r := t / threshold, t % threshold;
    Distribute(q, 1, threshold);
    if r + 1 == threshold {
      ModUnique(t + 1, q + 1, 0, threshold);
    } else {
      ModUnique(t + 1, q, r + 1, threshold);
    }
  }

  lemma WholeSteps(a: int, d: int)
    requires d >= 0
    ensures a >= 1 ==> a * d >= d
    ensures a <= -1 ==> a * d <= -d
  {
  }

  lemma ModUnique(x: nat, q: nat, r: nat, d: nat)
    requires r < d && x == q * d + r
    ensures x % d == r
  {
    var p := x / d;
    assert x == p * d + x % d;
    Distribute(q - p, p, d);
    WholeSteps(q - p, d);
    assert (q - p) * d == x % d - r;
  }

  lemma ModOfZero(d: int)
    requires d >= 1
    ensures 0 % d == 0
  {
  }

  lemma HistoryGrows(threshold: int, h: seq<Kind>, k: Kind)
    requires threshold >= 1
    ensures Trailing(h + [k]) == if k == Partial then Trailing(h) + 1 else 0
    ensures RefreshCalls(threshold, h + [k])
         == RefreshCalls(threshold, h) + (if CallsForRefresh(threshold, h + [k]) then 1 else 0)
  {
    hide CallsForRefresh;
    assert (h + [k])[..|h|] == h;
  }

  /** The running counter agrees with the history-only definitions, round by round. */
  lemma ObserveRound(cfg: Config, st: State, k: Kind)
    requires cfg.threshold >= 1 && st.streak == Trailing(st.history) % cfg.threshold
    ensures Triggers(cfg, st.streak, k) <==> CallsForRefresh(cfg.threshold, st.history + [k])
    ensures NextStreak(cfg, st.streak, k) == Trailing(st.history + [k]) % cfg.threshold
    ensures RefreshCalls(cfg.threshold, st.history + [k]) ==
            RefreshCalls(cfg.threshold, st.history) + (if Triggers(cfg, st.streak, k) then 1 else 0)
  {
    HistoryGrows(cfg.threshold, st.history, k);
    hide Trailing, RefreshCalls;
    if k == Partial {
      ModStep(Trailing(st.history), cfg.threshold);
    } else {
      ModOfZero(cfg.threshold);
    }
  }

  lemma MoreSuccesses(w: World, k: nat)
    ensures Successes(w, k + 1) == Successes(w, k) + (if w.make(k).None? then 1 else 0)
  {
  }

  /** A call keeps the invariant, whatever the world does. */
  lemma {:induction false} RecoverKeepsInv(cfg: Config, w: World, n: int, st: State, results: seq<RpcResult>)
    requires Inv(cfg, w, st)
    requires |results| == if n > 0 then n else 0
    ensures var (st', end) := Recover(cfg, w, n, st, results);
      && Inv(cfg, w, st')
      && st'.calls == st.calls && st.events <= st'.events
      && (end.BudgetExhausted? ==> st'.events >= cfg.budget)
      && (end.Normal? ==> |end.results| == (if n > 0 then n else 0))
      && (end.Normal? && cfg.canRefresh && n > 0 ==> !BlockFailedWithEndpointDeath(end.results, n))
    decreases if cfg.budget > st.events then cfg.budget - st.events else 0
  {
    hide BlockHasEndpointDeath, Escapes, Successes;
    if cfg.canRefresh {
      var k := Classify(results, n);
      var seen := Seen(cfg, st, k);
      if cfg.threshold >= 1 {
        ObserveRound(cfg, st, k);
      }
      MoreSuccesses(w, st.refreshes);
      if Triggers(cfg, st.streak, k) && st.events < cfg.budget && w.make(st.refreshes).None? {
        var tried := Tried(seen);
        var again := Gather(w, tried.rounds, n);
        var next := Renewed(tried);
        assert Inv(cfg, w, next);
        if !Escapes(cfg, again) {
          RecoverKeepsInv(cfg, w, n, next, again);
        }
      }
    }
  }

  lemma DispatchKeepsInv(cfg: Config, w: World, n: int, st: State)
    requires Inv(cfg, w, st)
    ensures var (st', end) := Dispatch(cfg, w, n, st);
      && Inv(cfg, w, st')
      && st'.calls == st.calls + 1 && st.events <= st'.events
      && (end.BudgetExhausted? ==> st'.events >= cfg.budget)
      && (end.Normal? ==> |end.results| == (if n > 0 then n else 0))
      && (end.Normal? && cfg.canRefresh && n > 0 ==> !BlockFailedWithEndpointDeath(end.results, n))
  {
    hide Classify, Escapes, Recover, BlockFailedWithEndpointDeath;
    var results := Gather(w, st.rounds, n);
    RecoverKeepsInv(cfg, w, n, Called(st), results);
  }

  // ----- What starts a recovery -----

  /** How an RPC's outcome reports a dead endpoint: a failed answer whose reason holds a fragment, or one of
      the exceptions that mean it. */
  predicate ReportsDeath(r: RpcResult) {
    match r
    case Answer(success, _, reason, _) => success == false && reason.Some? && HasDeathFragment(reason.value)
    case Failed(e) =>
      || e.kind == HttpxConnect
      || (e.kind == HttpxRead && HasDeathFragment(e.message))
      || (e.kind.GrpcRpc? && e.kind.code in {Some(Unavailable), Some(Cancelled)} && HasDeathFragment(e.kind.details))
  }

  lemma DeathResultIff(r: RpcResult)
    ensures IsDeathResult(r) <==> ReportsDeath(r)
  {
    hide HasDeathFragment;
    match r
    case Answer(_, _, _, _) => DeathFragmentIff("");
    case Failed(e) => DeathExactly(e);
  }

  /** A round is a whole death if every RPC of a non-empty block reports one, a partial death if some but
      not all do, and clean otherwise. */
  lemma KindExactly(results: seq<RpcResult>, n: int)
    requires |results| == if n > 0 then n else 0
    ensures Classify(results, n) == Whole <==> n > 0 && forall i :: 0 <= i < n ==> ReportsDeath(results[i])
    ensures Classify(results, n) == Clean <==> forall i :: 0 <= i < |results| ==> !ReportsDeath(results[i])
  {
    forall i | 0 <= i < |results| ensures IsDeathResult(results[i]) <==> ReportsDeath(results[i]) {
      DeathResultIff(results[i]);
    }
    hide ReportsDeath, IsDeathResult;
    if BlockHasEndpointDeath(results) {
      var i :| 0 <= i < |results| && IsDeathResult(results[i]);
      assert ReportsDeath(results[i]);
    }
    if n > 0 {
      assert IsDeathResult(results[0]) <==> ReportsDeath(results[0]);
    }
  }

  lemma {:induction false} RefreshesGrow(cfg: Config, w: World, n: int, st: State, results: seq<RpcResult>)
    ensures st.refreshes <= Recover(cfg, w, n, st, results).0.refreshes
    decreases if cfg.budget > st.events then cfg.budget - st.events else 0
  {
    hide Classify, Escapes, Gather;
    if cfg.canRefresh {
      var k := Classify(results, n);
      var seen := Seen(cfg, st, k);
      if Triggers(cfg, st.streak, k) && st.events < cfg.budget && w.make(st.refreshes).None? {
        var tried := Tried(seen);
        var next := Renewed(tried);
        RefreshesGrow(cfg, w, n, next, Gather(w, tried.rounds, n));
      }
    }
  }

  /** Round `round` of the world brings these results. */
  ghost predicate RoundBrings(w: World, round: nat, n: int, results: seq<RpcResult>) {
    |results| == (if n > 0 then n else 0) && forall i: nat :: i < |results| ==> results[i] == w.rpc(round, i)
  }

  lemma GatherBrings(w: World, round: nat, n: int)
    ensures RoundBrings(w, round, n, Gather(w, round, n))
  {
  }

  /** Every slot of a round reports a death. */
  ghost predicate DeadRound(w: World, round: nat, n: int) {
    n > 0 && forall slot: nat :: slot < n ==> ReportsDeath(w.rpc(round, slot))
  }

  /** Every slot of a round brings an answer, and none reports a death. */
  ghost predicate LiveRound(w: World, round: nat, n: int) {
    forall slot: nat :: slot < n ==> w.rpc(round, slot).Answer? && !ReportsDeath(w.rpc(round, slot))
  }

  /** A call whose first round reports a death in every slot attempts a refresh, while a driver can be made
      and budget is left. */
  lemma DeadRoundRefreshes(cfg: Config, w: World, n: int, st: State)
    requires cfg.canRefresh && st.events < cfg.budget && DeadRound(w, st.rounds, n)
    ensures st.refreshes < Dispatch(cfg, w, n, st).0.refreshes
  {
    var results := Gather(w, st.rounds, n);
    GatherBrings(w, st.rounds, n);
    KindExactly(results, n);
    DeathsDoNotEscape(cfg, results);
    hide Classify, Gather, ReportsDeath, Escapes;
    var st1 := Called(st);
    var seen := Seen(cfg, st1, Whole);
    var tried := Tried(seen);
    var next := Renewed(tried);
    if w.make(st.refreshes).None? && !Escapes(cfg, Gather(w, tried.rounds, n)) {
      RefreshesGrow(cfg, w, n, next, Gather(w, tried.rounds, n));
    }
  }

  lemma DeathsDoNotEscape(cfg: Config, results: seq<RpcResult>)
    requires forall i :: 0 <= i < |results| ==> ReportsDeath(results[i])
    ensures !Escapes(cfg, results)
  {
    hide HasDeathFragment;
  }

  /** A call whose first round reports no death refreshes nothing and hands the round's results back, slot by
      slot. */
  lemma CleanRoundReturns(cfg: Config, w: World, n: int, st: State)
    requires LiveRound(w, st.rounds, n)
    ensures var (st', end) := Dispatch(cfg, w, n, st);
      && end.Normal? && RoundBrings(w, st.rounds, n, end.results)
      && st'.refreshes == st.refreshes && st'.events == st.events && st'.rounds == st.rounds + 1
  {
    var results := Gather(w, st.rounds, n);
    GatherBrings(w, st.rounds, n);
    KindExactly(results, n);
    hide Classify, Gather, ReportsDeath;
  }

  lemma FirstRoundDecides(cfg: Config, w: World, n: int, st: State)
    ensures cfg.canRefresh && st.events < cfg.budget && DeadRound(w, st.rounds, n) ==>
      st.refreshes < Dispatch(cfg, w, n, st).0.refreshes
    ensures LiveRound(w, st.rounds, n) ==>
      var (st', end) := Dispatch(cfg, w, n, st);
      end.Normal? && RoundBrings(w, st.rounds, n, end.results) && st'.refreshes == st.refreshes
  {
    hide Dispatch, DeadRound, LiveRound, RoundBrings;
    if cfg.canRefresh && st.events < cfg.budget && DeadRound(w, st.rounds, n) {
      DeadRoundRefreshes(cfg, w, n, st);
    }
    if LiveRound(w, st.rounds, n) {
      CleanRoundReturns(cfg, w, n, st);
    }
  }

  /** Such a report, as the shipped REST driver words it. */
  lemma ShippedDeathText()
    ensures HasDeathFragment("rest chat: All connection attempts failed")
  {
    hide ENDPOINT_DEATH_MESSAGE_FRAGMENTS, HasDeathFragment, Lower;
    LoweredText();
    SecondFragment();
    FragmentReports("rest chat: ", "All connection attempts failed", "", 1);
    JoinedText();
  }

  lemma LoweredText()
    ensures Lower("All connection attempts failed") == "all connection attempts failed"
  {
  }

  lemma SecondFragment()
    ensures |ENDPOINT_DEATH_MESSAGE_FRAGMENTS| > 1
    ensures ENDPOINT_DEATH_MESSAGE_FRAGMENTS[1] == "all connection attempts failed"
  {
  }

  lemma JoinedText()
    ensures "rest chat: " + "All connection attempts failed" + "" == "rest chat: All connection attempts failed"
  {
  }

  /** Any sequence of calls, each with its own block size. */
  function RunCalls(cfg: Config, w: World, ns: seq<int>): (State, seq<End>) {
    if ns == [] then (START, [])
    else
      var (st, ends) := RunCalls(cfg, w, ns[..|ns| - 1]);
      var (st', end) := Dispatch(cfg, w, ns[|ns| - 1], st);
      (st', ends + [end])
  }

  /** Recovery over whole runs. For any sequence of calls and any world: the event counter is the
      number of successful refreshes and never passes the budget; gathers are exactly calls plus
      events, hence at most calls plus budget; the streak counter is the trailing run of partial
      deaths modulo the threshold, so it stays below it; refreshes happen exactly when the history
      calls for one and budget is left; and no call hands a wholly dead block back. */
  lemma {:induction false} RecoveryOverRuns(cfg: Config, w: World, ns: seq<int>)
    ensures var (st, ends) := RunCalls(cfg, w, ns);
      && Inv(cfg, w, st)
      && st.calls == |ns| == |ends|
      && (cfg.budget >= 0 ==> st.events <= cfg.budget && st.rounds <= |ns| + cfg.budget)
      && (cfg.threshold >= 1 ==> 0 <= st.streak < cfg.threshold)
      && (cfg.canRefresh ==> forall i :: 0 <= i < |ns| && ns[i] > 0 && ends[i].Normal? ==>
            !BlockFailedWithEndpointDeath(ends[i].results, ns[i]))
  {
    hide Dispatch, BlockFailedWithEndpointDeath;
    if ns != [] {
      var front := ns[..|ns| - 1];
      RecoveryOverRuns(cfg, w, front);
      DispatchKeepsInv(cfg, w, ns[|ns| - 1], RunCalls(cfg, w, front).0);
      assert forall i :: 0 <= i < |front| ==> front[i] == ns[i];
    }
  }

  // ----- The dispatcher as an object -----

  lemma NoRecovery(cfg: Config, w: World, n: int, st: State, results: seq<RpcResult>)
    requires !cfg.canRefresh
    ensures Recover(cfg, w, n, st, results) == (st, Normal(results))
  {
  }

  /** One turn of the recovery loop. */
  lemma RecoverOnce(cfg: Config, w: World, n: int, st: State, results: seq<RpcResult>)
    requires cfg.canRefresh
    ensures var k := Classify(results, n);
      var seen := Seen(cfg, st, k);
      var tried := Tried(seen);
      var next := Renewed(tried);
      Recover(cfg, w, n, st, results) ==
        if !Triggers(cfg, st.streak, k) then (seen, Normal(results))
        else if st.events >= cfg.budget then (Exhausted(seen), BudgetExhausted)
        else if w.make(seen.refreshes).Some? then (tried, RecoveryFailed(w.make(seen.refreshes).value))
        else if Escapes(cfg, Gather(w, tried.rounds, n)) then (next, Escaped)
        else Recover(cfg, w, n, next, Gather(w, tried.rounds, n))
  {
    hide Classify, Escapes, Gather;
  }

  class Dispatcher {
    const cfg: Config
    const world: World
    var preemptionEvents: nat
    var consecutiveDeathBlocks: int
    var rounds: nat
    var refreshes: nat
    ghost var calls: nat
    ghost var exhausted: nat
    ghost var history: seq<Kind>

    ghost function Now(): State
      reads this
    {
      State(preemptionEvents, consecutiveDeathBlocks, calls, rounds, refreshes, exhausted, history)
    }

    constructor (cfg: Config, world: World)
      ensures this.cfg == cfg && this.world == world && Now() == START
    {
      this.cfg, this.world := cfg, world;
      preemptionEvents, consecutiveDeathBlocks, rounds, refreshes := 0, 0, 0, 0;
      calls, exhausted, history := 0, 0, [];
    }

    /** One gather against the current driver. */
    method GatherBlock(n: int) returns (results: seq<RpcResult>)
      modifies this`rounds
      ensures results == Gather(world, old(rounds), n) && rounds == old(rounds) + 1
    {
      results := Gather(world, rounds, n);
      rounds := rounds + 1;
    }

    /** The dispatcher call: gather, then loop while the round calls for a refreshed driver. */
    method Call(n: int) returns (end: End)
      modifies this
      ensures (Now(), end) == Dispatch(cfg, world, n, old(Now()))
      ensures cfg.canRefresh && old(preemptionEvents) < cfg.budget && DeadRound(world, old(rounds), n) ==>
        old(refreshes) < refreshes
      ensures LiveRound(world, old(rounds), n) ==>
        end.Normal? && RoundBrings(world, old(rounds), n, end.results) && refreshes == old(refreshes)
    {
      FirstRoundDecides(cfg, world, n, Now());
      hide DeadRound, LiveRound, RoundBrings, BlockFailedWithEndpointDeath, BlockHasEndpointDeath, Escapes, Gather, Recover;
      ghost var target := Dispatch(cfg, world, n, Now());
      calls := calls + 1;
      var results := GatherBlock(n);
      if Escapes(cfg, results) {
        return Escaped;
      }
      while cfg.canRefresh
        invariant Recover(cfg, world, n, Now(), results) == target
        decreases if cfg.budget > preemptionEvents then cfg.budget - preemptionEvents else 0
      {
        RecoverOnce(cfg, world, n, Now(), results);
        history := history + [Classify(results, n)];
        if BlockFailedWithEndpointDeath(results, n) {
          consecutiveDeathBlocks := 0;
        } else if BlockHasEndpointDeath(results) {
          consecutiveDeathBlocks := consecutiveDeathBlocks + 1;
          if consecutiveDeathBlocks >= cfg.threshold {
            consecutiveDeathBlocks := 0;
          } else {
            return Normal(results);
          }
        } else {
          consecutiveDeathBlocks := 0;
          return Normal(results);
        }
        if preemptionEvents >= cfg.budget {
          exhausted := exhausted + 1;
          return BudgetExhausted;
        }
        refreshes := refreshes + 1;
        var failure := world.make(refreshes - 1);
        if failure.Some? {
          return RecoveryFailed(failure.value);
        }
        preemptionEvents := preemptionEvents + 1;
        results := GatherBlock(n);
        if Escapes(cfg, results) {
          return Escaped;
        }
      }
      NoRecovery(cfg, world, n, Now(), results);
      return Normal(results);
    }
  }
}

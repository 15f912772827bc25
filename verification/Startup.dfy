/** The startup handshake: the harness clears the Dict, then waits for `ready` and reads the rest. */
module Startup {
  import opened Common
  import opened Handshake

  datatype WaitResult = NotReady | Connected(urls: Bundle) | DeployFailed

  /** What the wait expects: the bearer token of its own deployment; `of(g)` is what generation `g`
      echoes. */
  datatype Tokens = Tokens(of: nat -> string, expected: string)

  /** One poll, its reads at the instants `at(0)` to `at(5)`: `ready`, gRPC, REST, the token, plain
      TCP, HTTPS edge. */
  function WaitPoll(world: nat -> World, at: nat -> nat, tokens: Tokens): WaitResult {
    if Read(world(at(0)), Ready) == None then NotReady
    else
      var grpc := Read(world(at(1)), Grpc);
      var rest := Read(world(at(2)), Rest);
      var echoed := Read(world(at(3)), Token);
      if grpc == None || rest == None then DeployFailed
      else if (if echoed == None then "" else tokens.of(echoed.value)) != tokens.expected then DeployFailed
      else
        var tcp := Read(world(at(4)), PlainTcp);
        var edge := Read(world(at(5)), HttpsEdge);
        if tcp == None || edge == None then DeployFailed
        else Connected(Bundle(grpc.value, rest.value, tcp, edge))
  }

  ghost predicate NotReadyBefore(world: nat -> World, at: (nat, nat) -> nat, tokens: Tokens, poll: nat) {
    forall p: nat :: p < poll ==> WaitPoll(world, PollTimes(at, p), tokens) == NotReady
  }

  /** Poll `p` is the first to find `ready`, and `r` is what it makes of it. */
  ghost predicate Decides(world: nat -> World, at: (nat, nat) -> nat, tokens: Tokens, p: nat, r: WaitResult) {
    NotReadyBefore(world, at, tokens, p) && r == WaitPoll(world, PollTimes(at, p), tokens) != NotReady
  }

  function PollTimes(at: (nat, nat) -> nat, poll: nat): nat -> nat {
    (i: nat) => at(poll, i)
  }

  /** `_wait_for_rest_grpc_handshake`: the first poll that finds `ready` decides; a deadline without
      one is a deploy error too. */
  method WaitForHandshake(world: nat -> World, at: (nat, nat) -> nat, tokens: Tokens, polls: nat) returns (r: WaitResult)
    ensures r != NotReady
    ensures (r == DeployFailed && NotReadyBefore(world, at, tokens, polls)) || exists p: nat :: p < polls && Decides(world, at, tokens, p, r)
  {
    hide WaitPoll;
    var poll := 0;
    while poll < polls
      invariant poll <= polls && NotReadyBefore(world, at, tokens, poll)
    {
      var seen := WaitPoll(world, PollTimes(at, poll), tokens);
      if seen != NotReady {
        assert Decides(world, at, tokens, poll, seen);
        return seen;
      }
      poll := poll + 1;
    }
    return DeployFailed;
  }

  // ----- From the end of the harness's clear on -----

  /** From instant 0 on the harness pops nothing, and no clearing pop of a server is lost. */
  ghost predicate Undisturbed(world: nat -> World) {
    forall t: nat :: QuietStep(world, t)
  }

  ghost predicate QuietStep(world: nat -> World, t: nat) {
    exists a :: Quiet(world(t), a) && world(t + 1) == Act(world(t), a)
  }

  predicate Quiet(s: World, a: Action) {
    Allowed(s, a, {}) && !a.OutsidePop?
  }

  /** What every world without lost pops satisfies, however often the harness has popped: a publishing
      server's Dict holds nothing it has not published. */
  ghost predicate Tidy(s: World) {
    && Inv(s, {})
    && (s.phase.Publishing? ==>
          && s.phase.put <= |PUBLISH_ORDER|
          && forall i :: s.phase.put <= i < |PUBLISH_ORDER| ==> PUBLISH_ORDER[i] !in s.dict)
  }

  lemma PublishOnce(i: nat, j: nat)
    requires i < |PUBLISH_ORDER| && j < |PUBLISH_ORDER| && i != j
    ensures PUBLISH_ORDER[i] != PUBLISH_ORDER[j]
  {
  }

  lemma ActKeepsTidy(s: World, a: Action)
    requires Tidy(s) && Allowed(s, a, {})
    ensures Tidy(Act(s, a))
  {
    ActKeepsInv(s, a, {});
    if a == Begin && s.phase == Clearing(|CLEAR_ORDER|) {
      forall k ensures k !in s.dict {
        EveryKeyIsCleared(k);
      }
    }
    hide Inv;
    if a == Put && s.phase.Publishing? && s.phase.put < |PUBLISH_ORDER| {
      forall i | s.phase.put < i < |PUBLISH_ORDER| ensures PUBLISH_ORDER[i] != PUBLISH_ORDER[s.phase.put] {
        PublishOnce(i, s.phase.put);
      }
    }
  }

  /** How far a server has come: generations in order, and their phases within. */
  function Stage(s: World): int {
    3 * s.generation + match s.phase case Clearing(_) => 0 case Publishing(_) => 1 case Closing(_) => 2
  }

  lemma ActAdvances(s: World, a: Action)
    ensures Stage(s) <= Stage(Act(s, a))
  {
  }

  lemma {:induction false} StageGrows(world: nat -> World, early: nat, late: nat)
    requires Undisturbed(world) && early <= late
    ensures Stage(world(early)) <= Stage(world(late))
    decreases late - early
  {
    hide Stage, Act, Quiet;
    if early < late {
      assert QuietStep(world, early);
      var a :| Quiet(world(early), a) && world(early + 1) == Act(world(early), a);
      ActAdvances(world(early), a);
      StageGrows(world, early + 1, late);
    }
  }

  /** The server of generation `g` had put its i-th key before instant 0, the world being `s0` then. */
  predicate AlreadyPut(s0: World, g: nat, i: nat) {
    s0.generation == g && s0.phase.Publishing? && i < s0.phase.put
  }

  /** Of the keys a publishing server has put, all are there but those put before instant 0 and gone by
      then. */
  ghost predicate Since(s0: World, s: World) {
    && Stage(s0) <= Stage(s) && Tidy(s)
    && (s.phase.Publishing? ==>
          && (s.generation == s0.generation && s0.phase.Publishing? ==> s0.phase.put <= s.phase.put)
          && forall i :: 0 <= i < s.phase.put && i < |PUBLISH_ORDER| ==>
               (PUBLISH_ORDER[i] in s.dict <==> (AlreadyPut(s0, s.generation, i) ==> PUBLISH_ORDER[i] in s0.dict)))
  }

  lemma PutKeepsSince(s0: World, s: World)
    requires Since(s0, s) && s.phase.Publishing? && s.phase.put < |PUBLISH_ORDER|
    ensures Since(s0, Act(s, Put))
  {
    ActKeepsTidy(s, Put);
    hide Tidy;
    var j, t := s.phase.put, Act(s, Put);
    forall i | 0 <= i <= j
      ensures PUBLISH_ORDER[i] in t.dict <==> (AlreadyPut(s0, t.generation, i) ==> PUBLISH_ORDER[i] in s0.dict)
    {
      if i < j {
        PublishOnce(i, j);
      }
    }
  }

  lemma QuietKeepsSince(s0: World, s: World, a: Action)
    requires Since(s0, s) && Quiet(s, a)
    ensures Since(s0, Act(s, a))
  {
    if a == Put && s.phase.Publishing? && s.phase.put < |PUBLISH_ORDER| {
      PutKeepsSince(s0, s);
    } else {
      ActKeepsTidy(s, a);
      ActAdvances(s, a);
    }
  }

  lemma {:induction false} RunKeepsSince(world: nat -> World, t: nat)
    requires Undisturbed(world) && Tidy(world(0))
    ensures Since(world(0), world(t))
  {
    hide Tidy, Act, Quiet;
    if t > 0 {
      RunKeepsSince(world, t - 1);
      assert QuietStep(world, t - 1);
      var a :| Quiet(world(t - 1), a) && world(t - 1 + 1) == Act(world(t - 1), a);
      hide Since;
      QuietKeepsSince(world(0), world(t - 1), a);
    }
  }

  /** `ready` comes last: seen while the server publishes, everything has been put. */
  lemma ReadyComesLast(s: World)
    requires Tidy(s) && s.phase.Publishing? && Ready in s.dict
    ensures s.phase == Publishing(|PUBLISH_ORDER|)
  {
    assert PUBLISH_ORDER[7] == Ready;
  }

  lemma DoneUntilStage(s: World, a: Action)
    requires s.phase == Publishing(|PUBLISH_ORDER|) && Quiet(s, a)
    ensures Act(s, a) == s || Stage(s) < Stage(Act(s, a))
  {
  }

  /** When everything has been put, nothing changes until the server closes or dies. */
  lemma {:induction false} DoneStays(world: nat -> World, early: nat, t: nat, late: nat)
    requires Undisturbed(world) && early <= t <= late
    requires world(early).phase == Publishing(|PUBLISH_ORDER|) && Stage(world(late)) == Stage(world(early))
    ensures world(t) == world(early)
    decreases t
  {
    hide Stage, Act, Quiet;
    if early < t {
      DoneStays(world, early, t - 1, late);
      assert QuietStep(world, t - 1);
      var a :| Quiet(world(t - 1), a) && world(t - 1 + 1) == Act(world(t - 1), a);
      DoneUntilStage(world(t - 1), a);
      StageGrows(world, t, late);
    }
  }

  ghost predicate InReadOrder(at: nat -> nat) {
    forall i: nat, j: nat :: i <= j ==> at(i) <= at(j)
  }

  /** The five keys a poll reads after `ready`: the first five published. */
  const READ_KEYS: nat := 5

  /** None of these keys was put before the end of the harness's clear and popped by it. */
  ghost predicate NothingPopped(s0: World, g: nat) {
    forall i: nat :: i < READ_KEYS && AlreadyPut(s0, g, i) ==> PUBLISH_ORDER[i] in s0.dict
  }

  predicate AllThere(s: World) {
    Grpc in s.dict && Rest in s.dict && PlainTcp in s.dict && HttpsEdge in s.dict && Token in s.dict
  }

  /** A poll all of whose reads see the world `s`. */
  lemma PollOf(world: nat -> World, at: nat -> nat, tokens: Tokens, s: World, g: nat)
    requires Ready in s.dict && forall i: nat :: i <= 5 ==> world(at(i)) == s
    requires forall k :: k in s.dict ==> s.dict[k] == g
    requires tokens.expected != ""
    ensures WaitPoll(world, at, tokens) == Connected(Bundle(g, g, Some(g), Some(g))) <==> AllThere(s) && tokens.of(g) == tokens.expected
    ensures WaitPoll(world, at, tokens) in {Connected(Bundle(g, g, Some(g), Some(g))), DeployFailed}
  {
    assert world(at(0)) == world(at(1)) == world(at(2)) == s;
    assert world(at(3)) == world(at(4)) == world(at(5)) == s;
  }

  /** When the wait connects. Let instant 0 be the end of the harness's clear, and let one server publish
      from the first read of a poll to the last. A poll that sees `ready` connects, with all URLs from that
      server, if and only if it echoes the expected token and none of the five keys read after `ready` had
      been put before instant 0 and popped by then; otherwise it reports a failed deployment. */
  lemma ReadyConnectsIff(world: nat -> World, at: nat -> nat, tokens: Tokens)
    requires Undisturbed(world) && Tidy(world(0)) && InReadOrder(at)
    requires world(at(0)).phase.Publishing? && world(at(5)).phase.Publishing?
    requires world(at(0)).generation == world(at(5)).generation
    requires tokens.expected != ""
    requires Ready in world(at(0)).dict
    ensures var g := world(at(0)).generation;
      var r := WaitPoll(world, at, tokens);
      var right := NothingPopped(world(0), g) && tokens.of(g) == tokens.expected;
      && (r == Connected(Bundle(g, g, Some(g), Some(g))) <==> right)
      && (r == DeployFailed <==> !right)
  {
    var s, s0 := world(at(0)), world(0);
    var g := s.generation;
    RunKeepsSince(world, at(0));
    ReadyComesLast(s);
    forall i: nat | i <= 5 ensures world(at(i)) == s {
      assert at(0) <= at(i) <= at(5);
      DoneStays(world, at(0), at(i), at(5));
    }
    PollOf(world, at, tokens, s, g);
    hide Inv, WaitPoll, Undisturbed, Stage;
    ReadKeys(s.dict);
    assert forall i: nat :: i < READ_KEYS ==>
      (PUBLISH_ORDER[i] in s.dict <==> (AlreadyPut(s0, g, i) ==> PUBLISH_ORDER[i] in s0.dict));
  }

  lemma ReadKeys(dict: map<Key, nat>)
    ensures (forall i: nat :: i < READ_KEYS ==> PUBLISH_ORDER[i] in dict)
      <==> Grpc in dict && Rest in dict && PlainTcp in dict && HttpsEdge in dict && Token in dict
  {
    var keys := PUBLISH_ORDER;
    assert keys[0] == Grpc && keys[1] == Rest && keys[2] == PlainTcp && keys[3] == HttpsEdge && keys[4] == Token;
  }

  // ----- The harness's own clear -----

  /** The server is spawned before the harness clears the Dict. Here the clear pops the gRPC key after
      the server has published it. */
  function LateClear(): nat -> Action {
    (t: nat) => if t == 0 then OutsidePop(Grpc) else Put
  }

  lemma LateClearStates()
    ensures StateAt(HALF_PUBLISHED, LateClear(), 8).dict.Keys == {Rest, PlainTcp, HttpsEdge, Token, Region, Model, Ready}
  {
    hide StateAt;
    var start, script := HALF_PUBLISHED, LateClear();
    StateZero(start, script);
    StateAfter(start, script, 0);
    assert StateAt(start, script, 1) == World(1, Publishing(1), map[]);
    StateAfter(start, script, 1);
    StateAfter(start, script, 2);
    StateAfter(start, script, 3);
    StateAfter(start, script, 4);
    StateAfter(start, script, 5);
    StateAfter(start, script, 6);
    StateAfter(start, script, 7);
  }

  /** A server publishes all along, and a poll at instant `t` reports failure. */
  ghost predicate FailsWhileServing(world: nat -> World, tokens: Tokens, t: nat) {
    && IsRun(world, {}) && Inv(world(0), {}) && (forall u: nat :: world(u).phase.Publishing?)
    && WaitPoll(world, Always(t), tokens) == DeployFailed
  }

  /** Then `ready` appears without a gRPC URL, and the wait reports a failed deployment although the
      server runs: nothing but the server's slow start keeps the two apart. */
  lemma LateClearFailsDeployment(tokens: Tokens)
    ensures exists world :: FailsWhileServing(world, tokens, 8)
  {
    hide StateAt, IsRun;
    ScriptedRun(HALF_PUBLISHED, LateClear(), {});
    LateClearStates();
    StateZero(HALF_PUBLISHED, LateClear());
    var world := RunOf(HALF_PUBLISHED, LateClear());
    forall t: nat ensures world(t).phase.Publishing? {
      StaysPublishing(t);
    }
    assert Ready in world(8).dict && Grpc !in world(8).dict;
    assert FailsWhileServing(world, tokens, 8);
  }

  lemma {:induction false} StaysPublishing(t: nat)
    ensures StateAt(HALF_PUBLISHED, LateClear(), t).phase.Publishing?
  {
    if t > 0 {
      StaysPublishing(t - 1);
    }
  }

  function Always(t: nat): nat -> nat { (i: nat) => t }
}

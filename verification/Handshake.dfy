/** The shared Dict between the harness and a server that may be preempted and restarted. */
module Handshake {
  import opened Common

  datatype Key = Grpc | Rest | PlainTcp | HttpsEdge | Token | Region | Model | Ready | Teardown

  /** Order in which a starting (and a closing) server pops the keys. */
  const CLEAR_ORDER: seq<Key> := [Grpc, Rest, PlainTcp, HttpsEdge, Token, Region, Model, Ready, Teardown]

  /** Order in which it publishes them. */
  const PUBLISH_ORDER: seq<Key> := [Grpc, Rest, PlainTcp, HttpsEdge, Token, Region, Model, Ready]

  /** Where the running server is: the next key to pop, the next key to put, or the next key to pop
      on the way out. */
  datatype Phase = Clearing(next: nat) | Publishing(put: nat) | Closing(pop: nat)

  /** The Dict maps a key to the generation that published its value. Generations count restarts;
      only one server runs at a time. */
  datatype World = World(generation: nat, phase: Phase, dict: map<Key, nat>)

  /** One action of the running server, or its death and replacement, or a key popped by the harness.
      The server ignores the error of a pop that fails, so a pop may be lost. */
  datatype Action = Pop | LostPop | Begin | Put | Close | Restart | OutsidePop(key: Key)

  function Act(s: World, a: Action): World {
    match (a, s.phase)
    case (Pop, Clearing(i)) =>
      if i < |CLEAR_ORDER| then World(s.generation, Clearing(i + 1), s.dict - {CLEAR_ORDER[i]}) else s
    case (LostPop, Clearing(i)) => if i < |CLEAR_ORDER| then s.(phase := Clearing(i + 1)) else s
    case (Begin, Clearing(i)) =>
      if i == |CLEAR_ORDER| then World(s.generation, Publishing(0), s.dict) else s
    case (Put, Publishing(j)) =>
      if j < |PUBLISH_ORDER| then World(s.generation, Publishing(j + 1), s.dict[PUBLISH_ORDER[j] := s.generation]) else s
    case (Close, Publishing(_)) => World(s.generation, Closing(0), s.dict)
    case (Pop, Closing(i)) =>
      if i < |CLEAR_ORDER| then World(s.generation, Closing(i + 1), s.dict - {CLEAR_ORDER[i]}) else s
    case (LostPop, Closing(i)) => if i < |CLEAR_ORDER| then s.(phase := Closing(i + 1)) else s
    case (Restart, _) => World(s.generation + 1, Clearing(0), s.dict)
    case (OutsidePop(k), _) => s.(dict := s.dict - {k})
    case (_, _) => s
  }

  /** The world at every instant; the server's actions come in any order the phases allow, any number
      of restarts included. A starting server may lose its pops of the keys in `lost`; a closing one may
      lose any. */
  ghost predicate IsRun(world: nat -> World, lost: set<Key>) {
    forall t: nat :: StepAt(world, t, lost)
  }

  ghost predicate StepAt(world: nat -> World, t: nat, lost: set<Key>) {
    exists a :: Allowed(world(t), a, lost) && world(t + 1) == Act(world(t), a)
  }

  predicate Allowed(s: World, a: Action, lost: set<Key>) {
    a == LostPop && s.phase.Clearing? && s.phase.next < |CLEAR_ORDER| ==> CLEAR_ORDER[s.phase.next] in lost
  }

  /** The keys whose clearing pops are never lost come from one generation at any instant, the latest in
      the Dict; a clearing server has removed those it passed, and a publishing one finds none older than
      itself. The gRPC value, published first, is as recent as any other. */
  ghost predicate Inv(s: World, lost: set<Key>) {
    && (forall k :: k in s.dict ==> s.dict[k] <= s.generation)
    && (forall k, l :: k in s.dict && l in s.dict && l !in lost ==> s.dict[k] <= s.dict[l])
    && (Grpc in s.dict ==> forall k :: k in s.dict ==> s.dict[k] <= s.dict[Grpc])
    && match s.phase
       case Clearing(i) =>
         i <= |CLEAR_ORDER| && forall j :: 0 <= j < i && CLEAR_ORDER[j] !in lost ==> CLEAR_ORDER[j] !in s.dict
       case Publishing(j) =>
         && (forall k :: k in s.dict && k !in lost ==> s.dict[k] == s.generation)
         && (j > 0 && Grpc in s.dict ==> s.dict[Grpc] == s.generation)
       case Closing(_) => forall k :: k in s.dict && k !in lost ==> s.dict[k] == s.generation
  }

  lemma EveryKeyIsCleared(k: Key)
    ensures exists j :: 0 <= j < |CLEAR_ORDER| && CLEAR_ORDER[j] == k
  {
    var j := match k
      case Grpc => 0 case Rest => 1 case PlainTcp => 2 case HttpsEdge => 3 case Token => 4
      case Region => 5 case Model => 6 case Ready => 7 case Teardown => 8;
    assert CLEAR_ORDER[j] == k;
  }

  lemma ActKeepsInv(s: World, a: Action, lost: set<Key>)
    requires Inv(s, lost) && Allowed(s, a, lost)
    ensures Inv(Act(s, a), lost)
  {
    if s.phase.Clearing? && s.phase.next == |CLEAR_ORDER| {
      forall k | k !in lost ensures k !in s.dict {
        EveryKeyIsCleared(k);
      }
    }
  }

  lemma {:induction false} RunKeepsInv(world: nat -> World, lost: set<Key>, early: nat, late: nat)
    requires early <= late
    requires IsRun(world, lost) && Inv(world(early), lost)
    ensures Inv(world(late), lost)
    decreases late - early
  {
    hide Inv, Act, Allowed;
    if early < late {
      assert StepAt(world, early, lost);
      var a :| Allowed(world(early), a, lost) && world(early + 1) == Act(world(early), a);
      ActKeepsInv(world(early), a, lost);
      RunKeepsInv(world, lost, early + 1, late);
    }
  }

  /** Neither the server nor any value of these keys is older than generation `g`. */
  ghost predicate AtLeast(s: World, keys: set<Key>, g: nat) {
    s.generation >= g && forall k :: k in s.dict && k in keys ==> s.dict[k] >= g
  }

  lemma ActKeepsFloor(s: World, a: Action, keys: set<Key>, g: nat)
    requires AtLeast(s, keys, g)
    ensures AtLeast(Act(s, a), keys, g)
  {
  }

  lemma {:induction false} NeverOlder(world: nat -> World, lost: set<Key>, early: nat, late: nat, keys: set<Key>, g: nat)
    requires early <= late
    requires IsRun(world, lost) && AtLeast(world(early), keys, g)
    ensures AtLeast(world(late), keys, g)
    decreases late - early
  {
    hide AtLeast, Act, Allowed;
    if early < late {
      assert StepAt(world, early, lost);
      var a :| Allowed(world(early), a, lost) && world(early + 1) == Act(world(early), a);
      ActKeepsFloor(world(early), a, keys, g);
      NeverOlder(world, lost, early + 1, late, keys, g);
    }
  }

  function Read(s: World, k: Key): Option<nat> {
    if k in s.dict then Some(s.dict[k]) else None
  }

  /** Reads never go back in time: what is read under a key whose clearing pops arrive, after a value of
      generation `g` under any key, is of generation `g` or later, and of `g` itself while no restart has
      happened. */
  lemma ReadsNeverGoBack(world: nat -> World, lost: set<Key>, early: nat, late: nat, k: Key, l: Key)
    requires IsRun(world, lost) && Inv(world(early), lost) && early <= late && l !in lost
    requires k in world(early).dict && l in world(late).dict
    ensures world(early).dict[k] <= world(late).dict[l]
    ensures world(late).generation == world(early).dict[k] ==> world(late).dict[l] == world(early).dict[k]
  {
    NeverOlder(world, lost, early, late, {l}, world(early).dict[k]);
    RunKeepsInv(world, lost, early, late);
  }

  // ----- The refresh poll -----

  /** What a refresh returns, each URL by the generation that published it. */
  datatype Bundle = Bundle(grpc: nat, rest: nat, plainTcp: Option<nat>, httpsEdge: Option<nat>)

  /** The environment of a refresh: when each of the four reads of a poll happens, which polls fail in
      transit, and the gRPC target each generation publishes. */
  datatype Polling = Polling(at: (nat, nat) -> nat, fails: nat -> bool, target: nat -> string)

  /** Reads happen in program order. */
  ghost predicate InOrder(p: Polling) {
    forall poll: nat, i: nat, j: nat :: i <= j ==> p.at(poll, i) <= p.at(poll, j)
  }

  /** One poll: gRPC, REST, plain TCP, HTTPS edge, in this order; fresh when the gRPC target differs
      from the cached one. */
  function Poll(world: nat -> World, p: Polling, cachedTarget: string, poll: nat): Option<Bundle> {
    if p.fails(poll) then None
    else
      var grpc := Read(world(p.at(poll, 0)), Grpc);
      var rest := Read(world(p.at(poll, 1)), Rest);
      var tcp := Read(world(p.at(poll, 2)), PlainTcp);
      var edge := Read(world(p.at(poll, 3)), HttpsEdge);
      if grpc == None || rest == None || p.target(grpc.value) == cachedTarget then None
      else Some(Bundle(grpc.value, rest.value, tcp, edge))
  }

  /** Poll `q` is the first one to find something fresh. */
  ghost predicate FirstFresh(world: nat -> World, p: Polling, cachedTarget: string, q: nat) {
    Poll(world, p, cachedTarget, q) != None && forall e :: 0 <= e < q ==> Poll(world, p, cachedTarget, e) == None
  }

  /** `refresh_rest_grpc_urls`: the first fresh poll before the deadline, if any. */
  method RefreshUrls(world: nat -> World, p: Polling, cachedTarget: string, polls: nat) returns (r: Option<Bundle>)
    ensures r == None ==> forall q :: 0 <= q < polls ==> Poll(world, p, cachedTarget, q) == None
    ensures r != None ==> exists q :: 0 <= q < polls && FirstFresh(world, p, cachedTarget, q) && r == Poll(world, p, cachedTarget, q)
  {
    var poll := 0;
    while poll < polls
      invariant poll <= polls
      invariant forall q :: 0 <= q < poll ==> Poll(world, p, cachedTarget, q) == None
    {
      var found := Poll(world, p, cachedTarget, poll);
      if found != None {
        return found;
      }
      poll := poll + 1;
    }
    return None;
  }

  /** A run of polls against a server that had generation `c` or later in the Dict at the outset. */
  ghost predicate Polled(world: nat -> World, lost: set<Key>, p: Polling, c: nat) {
    IsRun(world, lost) && InOrder(p) && Inv(world(0), lost) && AtLeast(world(0), ALL_KEYS, c)
  }

  const ALL_KEYS: set<Key> := {Grpc, Rest, PlainTcp, HttpsEdge, Token, Region, Model, Ready, Teardown}

  /** The URL keys a poll reads after the gRPC one. */
  const LATER_URLS: set<Key> := {Rest, PlainTcp, HttpsEdge}

  /** No URL of generation `c` or before, and generations that never decrease in reading order. */
  predicate Fresh(b: Bundle, c: nat) {
    && c < b.grpc <= b.rest
    && (b.plainTcp.Some? ==> b.rest <= b.plainTcp.value)
    && (b.httpsEdge.Some? ==> b.rest <= b.httpsEdge.value)
    && (b.plainTcp.Some? && b.httpsEdge.Some? ==> b.plainTcp.value <= b.httpsEdge.value)
  }

  /** No generation mixing with the dead server. Over every interleaving of polls with any number of
      restarts, a returned bundle holds no URL of the cached generation `c`. Any pops may be lost but the
      clearing ones of the three URL keys read after gRPC; those of the gRPC key itself may be. */
  lemma NoDeadGeneration(world: nat -> World, lost: set<Key>, p: Polling, c: nat, poll: nat)
    requires Polled(world, lost, p, c) && lost !! LATER_URLS
    requires Poll(world, p, p.target(c), poll).Some?
    ensures Fresh(Poll(world, p, p.target(c), poll).value, c)
  {
    var t0, t1, t2, t3 := p.at(poll, 0), p.at(poll, 1), p.at(poll, 2), p.at(poll, 3);
    RunKeepsInv(world, lost, 0, t0);
    RunKeepsInv(world, lost, 0, t1);
    RunKeepsInv(world, lost, 0, t2);
    NeverOlder(world, lost, 0, t0, ALL_KEYS, c);
    assert Rest !in lost && PlainTcp !in lost && HttpsEdge !in lost;
    hide Inv, IsRun, AtLeast;
    ReadsNeverGoBack(world, lost, t0, t1, Grpc, Rest);
    if PlainTcp in world(t2).dict {
      ReadsNeverGoBack(world, lost, t1, t2, Rest, PlainTcp);
    }
    if HttpsEdge in world(t3).dict {
      ReadsNeverGoBack(world, lost, t1, t3, Rest, HttpsEdge);
      if PlainTcp in world(t2).dict {
        ReadsNeverGoBack(world, lost, t2, t3, PlainTcp, HttpsEdge);
      }
    }
  }

  // ----- When a bundle mixes generations -----

  lemma {:induction false} GenerationGrows(world: nat -> World, lost: set<Key>, early: nat, late: nat)
    requires early <= late
    requires IsRun(world, lost)
    ensures world(early).generation <= world(late).generation
    decreases late - early
  {
    if early < late {
      assert StepAt(world, early, lost);
      GenerationGrows(world, lost, early + 1, late);
    }
  }

  /** A server of a generation newer than `g` was publishing at some instant up to `t`. */
  ghost predicate NewerPublished(world: nat -> World, g: nat, t: nat) {
    exists u: nat :: u <= t && PublishingNewer(world(u), g)
  }

  predicate PublishingNewer(s: World, g: nat) {
    s.phase.Publishing? && s.generation > g
  }

  /** A value that was not in the Dict was put by a publishing server of its generation. */
  lemma {:induction false} ValueWasPut(world: nat -> World, lost: set<Key>, early: nat, late: nat, l: Key, g: nat)
    requires early <= late
    requires IsRun(world, lost) && l in world(late).dict && world(late).dict[l] > g
    requires l in world(early).dict ==> world(early).dict[l] <= g
    ensures NewerPublished(world, g, late)
    decreases late - early
  {
    if early < late {
      if l in world(late - 1).dict && world(late - 1).dict[l] > g {
        ValueWasPut(world, lost, early, late - 1, l, g);
      } else {
        assert StepAt(world, late - 1, lost);
        var a :| Allowed(world(late - 1), a, lost) && world(late - 1 + 1) == Act(world(late - 1), a);
        PutByPublisher(world(late - 1), a, l, g);
        assert PublishingNewer(world(late - 1), g);
      }
    }
  }

  lemma PutByPublisher(s: World, a: Action, l: Key, g: nat)
    requires l in Act(s, a).dict && Act(s, a).dict[l] > g
    requires !(l in s.dict && s.dict[l] > g)
    ensures PublishingNewer(s, g)
  {
  }

  /** A URL read after the gRPC one is of another generation if and only if a newer server was already
      publishing by then. */
  lemma MixedIff(world: nat -> World, lost: set<Key>, t0: nat, t: nat, l: Key)
    requires IsRun(world, lost) && Inv(world(0), lost) && t0 <= t && l !in lost
    requires Grpc in world(t0).dict && l in world(t).dict
    ensures var g := world(t0).dict[Grpc];
      world(t).dict[l] != g <==> NewerPublished(world, g, t)
  {
    var g := world(t0).dict[Grpc];
    RunKeepsInv(world, lost, 0, t0);
    ReadsNeverGoBack(world, lost, t0, t, Grpc, l);
    if world(t).dict[l] > g {
      ValueWasPut(world, lost, t0, t, l, g);
    }
    if NewerPublished(world, g, t) {
      var u: nat :| u <= t && PublishingNewer(world(u), g);
      RunKeepsInv(world, lost, 0, u);
      assert AtLeast(world(u), {l}, world(u).generation);
      NeverOlder(world, lost, u, t, {l}, world(u).generation);
    }
  }

  /** The same for every URL of a bundle. */
  lemma BundleMixedIff(world: nat -> World, lost: set<Key>, p: Polling, c: nat, poll: nat)
    requires Polled(world, lost, p, c) && lost !! LATER_URLS
    requires Poll(world, p, p.target(c), poll).Some?
    ensures var b := Poll(world, p, p.target(c), poll).value;
      && (b.rest != b.grpc <==> NewerPublished(world, b.grpc, p.at(poll, 1)))
      && (b.plainTcp.Some? ==> (b.plainTcp.value != b.grpc <==> NewerPublished(world, b.grpc, p.at(poll, 2))))
      && (b.httpsEdge.Some? ==> (b.httpsEdge.value != b.grpc <==> NewerPublished(world, b.grpc, p.at(poll, 3))))
  {
    hide Inv, IsRun, AtLeast, NewerPublished;
    assert Rest !in lost && PlainTcp !in lost && HttpsEdge !in lost;
    var t0, t2, t3 := p.at(poll, 0), p.at(poll, 2), p.at(poll, 3);
    MixedIff(world, lost, t0, p.at(poll, 1), Rest);
    if PlainTcp in world(t2).dict {
      MixedIff(world, lost, t0, t2, PlainTcp);
    }
    if HttpsEdge in world(t3).dict {
      MixedIff(world, lost, t0, t3, HttpsEdge);
    }
  }

  /** In particular, when no restart happens between the first and the last read, the bundle is the work
      of one generation. */
  lemma OneGenerationWithoutRestart(world: nat -> World, lost: set<Key>, p: Polling, c: nat, poll: nat)
    requires Polled(world, lost, p, c) && lost !! LATER_URLS
    requires Poll(world, p, p.target(c), poll).Some?
    requires world(p.at(poll, 3)).generation == Poll(world, p, p.target(c), poll).value.grpc
    ensures var b := Poll(world, p, p.target(c), poll).value;
      && b.rest == b.grpc
      && (b.plainTcp.Some? ==> b.plainTcp.value == b.grpc)
      && (b.httpsEdge.Some? ==> b.httpsEdge.value == b.grpc)
  {
    BundleMixedIff(world, lost, p, c, poll);
    var t3 := p.at(poll, 3);
    forall u: nat | u <= t3 ensures !PublishingNewer(world(u), world(t3).generation) {
      GenerationGrows(world, lost, u, t3);
    }
    hide Inv, IsRun, AtLeast;
    assert p.at(poll, 1) <= t3 && p.at(poll, 2) <= t3;
  }

  // ----- Witness runs -----

  function Fixed(grpc: nat, later: nat): (nat, nat) -> nat {
    (poll: nat, i: nat) => if i == 0 then grpc else later
  }

  function NeverFails(): nat -> bool { (poll: nat) => false }

  function RunOf(start: World, script: nat -> Action): nat -> World {
    (t: nat) => StateAt(start, script, t)
  }

  function StateAt(start: World, script: nat -> Action, t: nat): World {
    if t == 0 then start else Act(StateAt(start, script, t - 1), script(t - 1))
  }

  lemma StateZero(start: World, script: nat -> Action)
    ensures StateAt(start, script, 0) == start
  {
  }

  lemma StateAfter(start: World, script: nat -> Action, t: nat)
    ensures StateAt(start, script, t + 1) == Act(StateAt(start, script, t), script(t))
  {
  }

  lemma ScriptedRun(start: World, script: nat -> Action, lost: set<Key>)
    requires forall t: nat :: Allowed(StateAt(start, script, t), script(t), lost)
    ensures IsRun(RunOf(start, script), lost)
  {
    hide Allowed, Act, StateAt;
    var world := RunOf(start, script);
    forall t: nat ensures StepAt(world, t, lost) {
      StateAfter(start, script, t);
      assert Allowed(world(t), script(t), lost) && world(t + 1) == Act(world(t), script(t));
    }
  }

  /** A refresh that has generation 0 cached can return `b`. */
  ghost predicate Returns(world: nat -> World, lost: set<Key>, p: Polling, poll: nat, b: Bundle) {
    Polled(world, lost, p, 0) && Poll(world, p, p.target(0), poll) == Some(b)
  }

  /** Pops of keys that are not there change nothing but the phase. */
  lemma {:induction false} PopsOfMissingKeys(start: World, script: nat -> Action, t: nat, i: nat, n: nat)
    requires StateAt(start, script, t).phase == Clearing(i) && i + n <= |CLEAR_ORDER|
    requires forall j: nat :: t <= j < t + n ==> script(j) == Pop
    requires forall j: nat :: i <= j < i + n ==> CLEAR_ORDER[j] !in StateAt(start, script, t).dict
    ensures StateAt(start, script, t + n) == StateAt(start, script, t).(phase := Clearing(i + n))
  {
    hide StateAt;
    if n > 0 {
      PopsOfMissingKeys(start, script, t, i, n - 1);
      StateAfter(start, script, t + n - 1);
      var s := StateAt(start, script, t);
      assert s.dict - {CLEAR_ORDER[i + n - 1]} == s.dict;
    }
  }

  function SecondRestart(): nat -> Action {
    (t: nat) => if t == 0 then Restart else if t < 10 then Pop else if t == 10 then Begin else Put
  }

  const HALF_PUBLISHED := World(1, Publishing(1), map[Grpc := 1])

  lemma SecondRestartStates()
    ensures StateAt(HALF_PUBLISHED, SecondRestart(), 0).dict == map[Grpc := 1]
    ensures StateAt(HALF_PUBLISHED, SecondRestart(), 13).dict == map[Grpc := 2, Rest := 2]
  {
    var start, script := HALF_PUBLISHED, SecondRestart();
    assert StateAt(start, script, 1) == World(2, Clearing(0), map[Grpc := 1]);
    assert StateAt(start, script, 2) == World(2, Clearing(1), map[]);
    PopsOfMissingKeys(start, script, 2, 1, 8);
    hide StateAt;
    assert StateAt(start, script, 10) == World(2, Clearing(9), map[]);
    StateAfter(start, script, 10);
    StateAfter(start, script, 11);
    StateAfter(start, script, 12);
    assert map[Grpc := 2][Rest := 2] == map[Grpc := 2, Rest := 2];
  }

  /** Two new generations may mix even when no pop is lost: a second restart between the gRPC and the REST
      read gives the gRPC URL of a server that is dead already beside the REST URL of its successor. */
  lemma NewGenerationsMayMix(target: nat -> string)
    requires target(1) != target(0)
    ensures exists world, p: Polling, poll :: p.target == target && Returns(world, {}, p, poll, Bundle(1, 2, None, None))
  {
    hide StateAt, IsRun;
    ScriptedRun(HALF_PUBLISHED, SecondRestart(), {});
    SecondRestartStates();
    StateZero(HALF_PUBLISHED, SecondRestart());
    var p := Polling(Fixed(0, 13), NeverFails(), target);
    var world := RunOf(HALF_PUBLISHED, SecondRestart());
    assert Returns(world, {}, p, 0, Bundle(1, 2, None, None));
  }

  /** Position in the clear of a URL key read after the gRPC one. */
  function PlaceOf(key: Key): (i: nat)
    requires key in LATER_URLS
    ensures 1 <= i <= 3 && CLEAR_ORDER[i] == key == PUBLISH_ORDER[i]
  {
    if key == Rest then 1 else if key == PlainTcp then 2 else 3
  }

  /** A restart whose clear loses the pop of `key`; then the new server publishes. */
  function LosingPopOf(key: Key): nat -> Action
    requires key in LATER_URLS
  {
    (t: nat) =>
      if t == 0 then Restart else if t == PlaceOf(key) + 1 then LostPop
      else if t < 10 then Pop else if t == 10 then Begin else Put
  }

  function Serving(key: Key): World {
    World(0, Publishing(4), map[Grpc := 0, key := 0])
  }

  /** Around the lost pop. */
  lemma LosingPopStep(key: Key)
    requires key in LATER_URLS
    ensures var i := PlaceOf(key);
      StateAt(Serving(key), LosingPopOf(key), i + 1) == World(1, Clearing(i), map[key := 0])
    ensures StateAt(Serving(key), LosingPopOf(key), 10) == World(1, Clearing(9), map[key := 0])
  {
    hide StateAt;
    var start, script, i := Serving(key), LosingPopOf(key), PlaceOf(key);
    StateZero(start, script);
    StateAfter(start, script, 0);
    StateAfter(start, script, 1);
    assert map[Grpc := 0, key := 0] - {Grpc} == map[key := 0];
    assert StateAt(start, script, 2) == World(1, Clearing(1), map[key := 0]);
    PopsOfMissingKeys(start, script, 2, 1, i - 1);
    StateAfter(start, script, i + 1);
    assert StateAt(start, script, i + 2) == World(1, Clearing(i + 1), map[key := 0]);
    PopsOfMissingKeys(start, script, i + 2, i + 1, 8 - i);
  }

  lemma LosingPopStates(key: Key)
    requires key in LATER_URLS
    ensures StateAt(Serving(key), LosingPopOf(key), 12) == World(1, Publishing(1), map[Grpc := 1, key := 0])
    ensures forall t: nat :: Allowed(StateAt(Serving(key), LosingPopOf(key), t), LosingPopOf(key)(t), {key})
  {
    hide StateAt;
    var start, script, i := Serving(key), LosingPopOf(key), PlaceOf(key);
    LosingPopStep(key);
    StateAfter(start, script, 10);
    StateAfter(start, script, 11);
    assert map[key := 0][Grpc := 1] == map[Grpc := 1, key := 0];
    forall t: nat ensures Allowed(StateAt(start, script, t), script(t), {key}) {
      if t != i + 1 {
        assert script(t) != LostPop;
      }
    }
  }

  /** The bundle a poll at that instant, or one put later, makes of it. */
  function Leaked(key: Key): Bundle {
    match key
    case Rest => Bundle(1, 0, None, None)
    case PlainTcp => Bundle(1, 1, Some(0), None)
    case _ => Bundle(1, 1, None, Some(0))
  }

  /** Each of the three pops matters: if the clearing pop of a URL key read after gRPC can be lost, a
      bundle can pair the new gRPC URL with the dead server's URL under that key. */
  lemma LostPopLeaksDeadUrl(key: Key, target: nat -> string)
    requires key in LATER_URLS && target(1) != target(0)
    ensures exists world, p: Polling, poll :: p.target == target && Returns(world, {key}, p, poll, Leaked(key))
  {
    hide StateAt, IsRun, LosingPopOf;
    LosingPopStates(key);
    ScriptedRun(Serving(key), LosingPopOf(key), {key});
    StateZero(Serving(key), LosingPopOf(key));
    var world := RunOf(Serving(key), LosingPopOf(key));
    var t := if key == Rest then 12 else 13;
    if key != Rest {
      NextPut(key);
    }
    var p := Polling(Fixed(t, t), NeverFails(), target);
    assert Poll(world, p, target(0), 0) == Some(Leaked(key));
    assert Returns(world, {key}, p, 0, Leaked(key));
  }

  lemma NextPut(key: Key)
    requires key in LATER_URLS && key != Rest
    ensures StateAt(Serving(key), LosingPopOf(key), 13).dict == map[Grpc := 1, key := 0][Rest := 1]
  {
    hide StateAt;
    LosingPopStates(key);
    StateAfter(Serving(key), LosingPopOf(key), 12);
    var m, i := map[Grpc := 1, key := 0], PlaceOf(key);
    assert |PUBLISH_ORDER| == 8 && PUBLISH_ORDER[1] == Rest;
    assert Act(World(1, Publishing(1), m), Put) == World(1, Publishing(2), m[Rest := 1]);
  }

  /** Every bundle that a refresh with generation 0 cached can return is fresh. */
  ghost predicate Safe(lost: set<Key>, target: nat -> string) {
    forall world: nat -> World, p: Polling, poll: nat, b: Bundle ::
      p.target == target && Returns(world, lost, p, poll, b) ==> Fresh(b, 0)
  }

  /** The exact condition on lost pops: no bundle of any run holds a URL of the dead generation if and
      only if none of the three URL keys read after gRPC can lose its clearing pop. */
  lemma SafeIffUrlsCleared(lost: set<Key>, target: nat -> string)
    requires target(1) != target(0)
    ensures Safe(lost, target) <==> lost !! LATER_URLS
  {
    if lost !! LATER_URLS {
      SafeWhenCleared(lost, target);
    } else {
      var key :| key in lost && key in LATER_URLS;
      LeakMeansUnsafe(lost, key, target);
    }
  }

  lemma SafeWhenCleared(lost: set<Key>, target: nat -> string)
    requires lost !! LATER_URLS
    ensures Safe(lost, target)
  {
    hide Polled, Fresh, Poll;
    forall world: nat -> World, p: Polling, poll: nat, b: Bundle | p.target == target && Returns(world, lost, p, poll, b)
      ensures Fresh(b, 0)
    {
      NoDeadGeneration(world, lost, p, 0, poll);
    }
  }

  lemma LeakMeansUnsafe(lost: set<Key>, key: Key, target: nat -> string)
    requires key in lost && key in LATER_URLS && target(1) != target(0)
    ensures !Safe(lost, target)
  {
    hide Polled, Poll;
    LostPopLeaksDeadUrl(key, target);
    var world, p: Polling, poll :| p.target == target && Returns(world, {key}, p, poll, Leaked(key));
    MoreLost(world, {key}, lost, p, poll, Leaked(key));
    assert Returns(world, lost, p, poll, Leaked(key));
    assert !Fresh(Leaked(key), 0);
  }

  /** A run in which fewer pops may be lost is one in which more may be. */
  lemma MoreLost(world: nat -> World, few: set<Key>, lost: set<Key>, p: Polling, poll: nat, b: Bundle)
    requires Returns(world, few, p, poll, b) && few <= lost
    ensures Returns(world, lost, p, poll, b)
  {
    forall t: nat ensures StepAt(world, t, lost) {
      assert StepAt(world, t, few);
      var a :| Allowed(world(t), a, few) && world(t + 1) == Act(world(t), a);
      assert Allowed(world(t), a, lost);
    }
  }
}

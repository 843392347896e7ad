/** Every interleaving of reconcile steps with the world around them, for one fixed Ingress:
    reads of a lagging cache and the writes decided from them may be arbitrarily far apart, calls
    may fail or lose their answers, watch events arrive late or are skipped, and gateways write
    route status at any time. */
module Interleaving {

  import opened Wrappers
  import opened GoStrings
  import opened GatewayApi
  import opened Protocol
  import opened Convergence

  /** `history` holds the states that routes have had, the source of late watch events; `pending` the
      writes decided but not yet made; `writes` counts the ones the server carried out. */
  datatype State = State(
    server: Server, indexer: map<string, HTTPRoute>, history: set<HTTPRoute>, pending: seq<Write>, writes: nat)

  datatype Event =
    | Observe(rule: nat)
    | Commit(index: nat, arrives: bool)
    | Deliver(route: HTTPRoute)
    | DeliverAbsence(key: Key)
    | GatewayWrites(key: Key, status: Option<seq<RouteGatewayStatus>>)

  function Put(s: State, r: HTTPRoute): State {
    var server := Store(s.server, r);
    s.(server := server, history := s.history + {server.routes[KeyOf(r)]})
  }

  /** One step. An event that cannot happen in a state changes nothing. */
  function Step(s: State, e: Event, wants: seq<HTTPRoute>): State {
    match e
    case Observe(i) =>
      if i >= |wants| then s
      else
        var d := Decide(ListerGet(s.indexer, wants[i].namespace, wants[i].name), wants[i]);
        if d.None? then s else s.(pending := s.pending + [d.value])
    case Commit(j, arrives) =>
      if j >= |s.pending| then s
      else
        var w, rest := s.pending[j], s.(pending := s.pending[..j] + s.pending[j + 1..]);
        if !arrives || Refusal(s.server, w).Some? then rest
        else Put(rest, w.route).(writes := s.writes + 1)
    case Deliver(r) =>
      var k := MetaNamespaceKey(r.namespace, r.name);
      if r in s.history && (k in s.indexer ==> s.indexer[k].version < r.version) then s.(indexer := s.indexer[k := r])
      else s
    case DeliverAbsence(k) =>
      if NamespaceOk(k.0) then s.(indexer := s.indexer - {MetaNamespaceKey(k.0, k.1)}) else s
    case GatewayWrites(k, status) =>
      if k in s.server.routes then Put(s, s.server.routes[k].(gateways := status)) else s
  }

  function Run(s: State, events: seq<Event>, wants: seq<HTTPRoute>): State {
    if events == [] then s else Step(Run(s, events[..|events| - 1], wants), events[|events| - 1], wants)
  }

  // ---------- Invariant ----------

  /** A past state of a route: if the server still has the route, it has this version or a later one. */
  ghost predicate Past(s: Server, r: HTTPRoute) {
    && NamespaceOk(r.namespace) && r.version <= s.revision
    && (KeyOf(r) in s.routes ==>
          && r.version <= s.routes[KeyOf(r)].version
          && (s.routes[KeyOf(r)].version == r.version ==> s.routes[KeyOf(r)] == r))
  }

  /** A pending write brings a rule's content: as a new route, or over some past undesired state. */
  ghost predicate Justified(history: set<HTTPRoute>, w: Write, wants: seq<HTTPRoute>) {
    match w
    case CreateRoute(r) => exists i :: 0 <= i < |wants| && r == wants[i]
    case UpdateRoute(r) => exists i, h :: JustifiedUpdate(history, r, wants, i, h)
  }

  ghost predicate JustifiedUpdate(history: set<HTTPRoute>, r: HTTPRoute, wants: seq<HTTPRoute>, i: nat, h: HTTPRoute) {
    && i < |wants| && h in history && KeyOf(h) == KeyOf(wants[i])
    && !SameContent(h, wants[i]) && r == WithContent(h, wants[i])
  }

  ghost predicate Inv(s: State, wants: seq<HTTPRoute>) {
    && Proper(wants) && Compatible(wants) && WellKept(s.server) && WellIndexed(s.indexer)
    && (forall k :: k in s.indexer ==> s.indexer[k] in s.history)
    && (forall k :: k in s.server.routes ==> s.server.routes[k] in s.history)
    && (forall r :: r in s.history ==> Past(s.server, r))
    && (forall j :: 0 <= j < |s.pending| ==> Justified(s.history, s.pending[j], wants))
  }

  /** Storing new content over a route, desired content included, keeps every past state past. */
  lemma PutKeepsPast(s: State, r: HTTPRoute, wants: seq<HTTPRoute>)
    requires Inv(s, wants) && NamespaceOk(r.namespace)
    requires forall i :: 0 <= i < |wants| && KeyOf(wants[i]) == KeyOf(r) && Desired(s.server, wants[i]) ==>
               SameContent(r, wants[i])
    ensures Inv(Put(s, r), wants)
    ensures forall i :: 0 <= i < |wants| && Desired(s.server, wants[i]) ==> Desired(Put(s, r).server, wants[i])
  {
    var t := Put(s, r);
    forall h | h in t.history ensures Past(t.server, h) {
      if h in s.history { assert Past(s.server, h); }
    }
    forall j | 0 <= j < |t.pending| ensures Justified(t.history, t.pending[j], wants) {
      JustifiedLater(s.history, t.history, t.pending[j], wants);
    }
  }

  lemma JustifiedLater(h0: set<HTTPRoute>, h1: set<HTTPRoute>, w: Write, wants: seq<HTTPRoute>)
    requires Justified(h0, w, wants) && h0 <= h1
    ensures Justified(h1, w, wants)
  {
    if w.UpdateRoute? {
      var i, h :| JustifiedUpdate(h0, w.route, wants, i, h);
      assert JustifiedUpdate(h1, w.route, wants, i, h);
    }
  }

  lemma DropKeeps(s: State, j: nat, wants: seq<HTTPRoute>)
    requires Inv(s, wants) && j < |s.pending|
    ensures Inv(s.(pending := s.pending[..j] + s.pending[j + 1..]), wants)
  {
    var t := s.(pending := s.pending[..j] + s.pending[j + 1..]);
    forall n | 0 <= n < |t.pending| ensures Justified(t.history, t.pending[n], wants) {
      assert t.pending[n] == s.pending[if n < j then n else n + 1];
    }
  }

  lemma ObserveKeeps(s: State, i: nat, wants: seq<HTTPRoute>)
    requires Inv(s, wants)
    ensures Inv(Step(s, Observe(i), wants), wants)
  {
    var t := Step(s, Observe(i), wants);
    if t != s {
      var want := wants[i];
      assert NamespaceOk(want.namespace);
      var c := ListerGet(s.indexer, want.namespace, want.name);
      ListerIsKeyed(s.indexer, want.namespace, want.name);
      if c.Some? {
        assert JustifiedUpdate(t.history, t.pending[|s.pending|].route, wants, i, c.value);
      }
    }
  }

  /** A write the server carries out turns an undesired rule into a desired one. */
  lemma CarriedOutWasNeeded(s: State, w: Write, wants: seq<HTTPRoute>) returns (i: nat)
    requires Inv(s, wants) && Justified(s.history, w, wants) && Refusal(s.server, w).None?
    ensures i < |wants| && KeyOf(w.route) == KeyOf(wants[i]) && SameContent(w.route, wants[i])
    ensures !Desired(s.server, wants[i])
    ensures KeyOf(w.route) in s.server.routes ==> w.route == WithContent(s.server.routes[KeyOf(w.route)], wants[i])
  {
    if w.CreateRoute? {
      i :| 0 <= i < |wants| && w.route == wants[i];
    } else {
      var h;
      i, h :| JustifiedUpdate(s.history, w.route, wants, i, h);
      assert Past(s.server, h) && s.server.routes[KeyOf(h)] == h;
    }
  }

  // ---------- What a step does ----------

  ghost predicate Wanted(r: HTTPRoute, wants: seq<HTTPRoute>) {
    exists i :: 0 <= i < |wants| && KeyOf(wants[i]) == KeyOf(r) && SameContent(r, wants[i])
  }

  /** How the server may change: routes are never lost, renamed or re-owned; the content of each is
      what it was or what the Ingress wants; new ones are wanted; what was desired still is. */
  ghost predicate Evolved(a: Server, b: Server, wants: seq<HTTPRoute>) {
    && (forall k :: k in a.routes ==> k in b.routes && b.routes[k].owners == a.routes[k].owners
                                      && (SameContent(b.routes[k], a.routes[k]) || Wanted(b.routes[k], wants)))
    && (forall k :: k in b.routes && k !in a.routes ==> Wanted(b.routes[k], wants))
    && (forall i :: 0 <= i < |wants| && Desired(a, wants[i]) ==> Desired(b, wants[i]))
  }

  lemma EvolvedTransitive(a: Server, b: Server, c: Server, wants: seq<HTTPRoute>)
    requires Evolved(a, b, wants) && Evolved(b, c, wants) && WellKept(a) && WellKept(b) && WellKept(c)
    ensures Evolved(a, c, wants)
  {
    forall k | k in b.routes && Wanted(b.routes[k], wants) ensures k in c.routes && Wanted(c.routes[k], wants) {
      var i :| 0 <= i < |wants| && KeyOf(wants[i]) == KeyOf(b.routes[k]) && SameContent(b.routes[k], wants[i]);
      assert Desired(b, wants[i]) && Desired(c, wants[i]);
    }
  }

  /** The names whose desired route is not on the server. */
  ghost function Undesired(s: Server, wants: seq<HTTPRoute>): set<Key> {
    set i | 0 <= i < |wants| && !Desired(s, wants[i]) :: KeyOf(wants[i])
  }

  lemma StoreEvolves(s: Server, r: HTTPRoute, wants: seq<HTTPRoute>, i: nat)
    requires WellKept(s) && Compatible(wants) && i < |wants| && !Desired(s, wants[i])
    requires KeyOf(r) == KeyOf(wants[i]) && SameContent(r, wants[i])
    requires KeyOf(r) in s.routes ==> r.owners == s.routes[KeyOf(r)].owners
    ensures Evolved(s, Store(s, r), wants)
    ensures |Undesired(Store(s, r), wants)| == |Undesired(s, wants)| - 1
  {
    var t := Store(s, r);
    assert forall m :: 0 <= m < |wants| && KeyOf(wants[m]) == KeyOf(wants[i]) ==> SameContent(wants[m], wants[i]);
    assert Wanted(t.routes[KeyOf(r)], wants);
    UndesiredShrinks(s, t, wants, i);
  }

  lemma CommitKeeps(s: State, w: Write, wants: seq<HTTPRoute>)
    requires Inv(s, wants) && Justified(s.history, w, wants) && Refusal(s.server, w).None?
    ensures Inv(Put(s, w.route), wants)
  {
    var i := CarriedOutWasNeeded(s, w, wants);
    assert NamespaceOk(wants[i].namespace);
    assert forall m :: 0 <= m < |wants| && KeyOf(wants[m]) == KeyOf(wants[i]) ==> SameContent(wants[m], wants[i]);
    PutKeepsPast(s, w.route, wants);
  }

  lemma CommitEffect(s: State, j: nat, wants: seq<HTTPRoute>)
    requires Inv(s, wants) && j < |s.pending| && Refusal(s.server, s.pending[j]).None?
    ensures var t := Step(s, Commit(j, true), wants);
            Inv(t, wants) && Evolved(s.server, t.server, wants)
            && t.writes == s.writes + 1 && |Undesired(t.server, wants)| == |Undesired(s.server, wants)| - 1
  {
    var w := s.pending[j];
    assert Justified(s.history, w, wants);
    DropKeeps(s, j, wants);
    CommitKeeps(s.(pending := s.pending[..j] + s.pending[j + 1..]), w, wants);
    var i := CarriedOutWasNeeded(s, w, wants);
    StoreEvolves(s.server, w.route, wants, i);
  }

  lemma UndesiredShrinks(a: Server, b: Server, wants: seq<HTTPRoute>, i: nat)
    requires Compatible(wants) && i < |wants| && !Desired(a, wants[i]) && Desired(b, wants[i])
    requires forall k :: k != KeyOf(wants[i]) ==> (k in a.routes <==> k in b.routes)
    requires forall k :: k != KeyOf(wants[i]) && k in a.routes ==> SameContent(a.routes[k], b.routes[k])
    ensures |Undesired(b, wants)| == |Undesired(a, wants)| - 1
  {
    var k := KeyOf(wants[i]);
    forall m | 0 <= m < |wants| ensures if KeyOf(wants[m]) == k then !Desired(a, wants[m]) && Desired(b, wants[m])
                                        else Desired(a, wants[m]) == Desired(b, wants[m]) {
    }
    assert k in Undesired(a, wants);
    assert Undesired(b, wants) == Undesired(a, wants) - {k};
  }

  lemma GatewayWriteEffect(s: State, k: Key, status: Option<seq<RouteGatewayStatus>>, wants: seq<HTTPRoute>)
    requires Inv(s, wants)
    ensures var t := Step(s, GatewayWrites(k, status), wants);
            Inv(t, wants) && Evolved(s.server, t.server, wants)
            && t.writes == s.writes && Undesired(t.server, wants) == Undesired(s.server, wants)
  {
    if k in s.server.routes {
      assert Past(s.server, s.server.routes[k]);
      PutKeepsPast(s, s.server.routes[k].(gateways := status), wants);
      var t := Step(s, GatewayWrites(k, status), wants);
      assert forall m :: 0 <= m < |wants| ==> Desired(s.server, wants[m]) == Desired(t.server, wants[m]);
    }
  }

  lemma DeliverKeeps(s: State, r: HTTPRoute, wants: seq<HTTPRoute>)
    requires Inv(s, wants)
    ensures Inv(Step(s, Deliver(r), wants), wants)
  {
    var t := Step(s, Deliver(r), wants);
    if t != s { assert Past(s.server, r); }
  }

  lemma StepSafe(s: State, e: Event, wants: seq<HTTPRoute>)
    requires Inv(s, wants)
    ensures var t := Step(s, e, wants);
            Inv(t, wants) && Evolved(s.server, t.server, wants)
            && t.writes + |Undesired(t.server, wants)| == s.writes + |Undesired(s.server, wants)|
  {
    match e
    case Observe(i) => ObserveKeeps(s, i, wants);
    case Deliver(r) => DeliverKeeps(s, r, wants);
    case DeliverAbsence(k) =>
    case GatewayWrites(k, status) => GatewayWriteEffect(s, k, status, wants);
    case Commit(j, arrives) =>
      if j < |s.pending| {
        if arrives && Refusal(s.server, s.pending[j]).None? {
          CommitEffect(s, j, wants);
        } else {
          DropKeeps(s, j, wants);
        }
      }
  }

  // ---------- Whole runs ----------

  /** Where runs begin: any routes, any of the states they have had still on the way to the cache, a cache
      that shows some of those states, may be missing some routes and still show others that are gone, and
      no write under way. */
  ghost predicate Start(s: State, wants: seq<HTTPRoute>) {
    && Proper(wants) && Compatible(wants) && WellKept(s.server) && WellIndexed(s.indexer)
    && s.server.routes.Values + s.indexer.Values <= s.history
    && (forall r :: r in s.history ==> Past(s.server, r))
    && s.pending == [] && s.writes == 0
  }

  lemma StartInv(s: State, wants: seq<HTTPRoute>)
    requires Start(s, wants)
    ensures Inv(s, wants)
  {
    assert forall k :: k in s.indexer ==> s.indexer[k] in s.indexer.Values;
    assert forall k :: k in s.server.routes ==> s.server.routes[k] in s.server.routes.Values;
  }

  lemma {:induction false} RunSafe(s: State, events: seq<Event>, wants: seq<HTTPRoute>)
    requires Inv(s, wants)
    ensures var t := Run(s, events, wants);
            && Inv(t, wants) && Evolved(s.server, t.server, wants)
            && t.writes + |Undesired(t.server, wants)| == s.writes + |Undesired(s.server, wants)|
  {
    if events != [] {
      var front, last := events[..|events| - 1], events[|events| - 1];
      RunSafe(s, front, wants);
      StepSafe(Run(s, front, wants), last, wants);
      EvolvedTransitive(s.server, Run(s, front, wants).server, Run(s, events, wants).server, wants);
    }
  }

  /** Safety of every run from every start, at every moment: each route's content is its initial
      or its desired one, nothing else about it but status and version has changed, no unwanted
      route has appeared, and what was ever desired still is. And a conservation law: each write
      the controller got through made exactly one more name desired, so however stale the cache,
      however many passes and faults, it writes at most once per name. */
  lemma AlwaysSafe(s: State, events: seq<Event>, wants: seq<HTTPRoute>)
    requires Start(s, wants)
    ensures var t := Run(s, events, wants);
            && Inv(t, wants) && Evolved(s.server, t.server, wants)
            && t.writes + |Undesired(t.server, wants)| == |Undesired(s.server, wants)|
  {
    StartInv(s, wants);
    RunSafe(s, events, wants);
  }

  /** Between any two moments of a run nothing desired is undone. */
  lemma OnceDesired(s: State, before: seq<Event>, after: seq<Event>, wants: seq<HTTPRoute>)
    requires Start(s, wants)
    ensures Evolved(Run(s, before, wants).server, Run(s, before + after, wants).server, wants)
  {
    AlwaysSafe(s, before, wants);
    RunSafe(Run(s, before, wants), after, wants);
    RunAppend(s, before, after, wants);
  }

  // ---------- Passes in the middle of a run ----------

  /** No state of a route in the cache or on the way to it is desired unless the present one is. */
  ghost predicate Honest(s: State, wants: seq<HTTPRoute>) {
    forall r, i :: r in s.history && 0 <= i < |wants| && KeyOf(wants[i]) == KeyOf(r) && SameContent(r, wants[i]) ==>
      Desired(s.server, wants[i])
  }

  lemma {:induction false} HonestForever(s: State, events: seq<Event>, wants: seq<HTTPRoute>)
    requires Inv(s, wants) && Honest(s, wants)
    ensures Honest(Run(s, events, wants), wants)
  {
    if events != [] {
      var front, last := events[..|events| - 1], events[|events| - 1];
      HonestForever(s, front, wants);
      RunSafe(s, front, wants);
      StepHonest(Run(s, front, wants), last, wants);
    }
  }

  lemma StepHonest(s: State, e: Event, wants: seq<HTTPRoute>)
    requires Inv(s, wants) && Honest(s, wants)
    ensures Honest(Step(s, e, wants), wants)
  {
    StepSafe(s, e, wants);
    HistoryGrows(s, e, wants);
  }

  /** Whatever is new in the history is what the server holds now. */
  lemma HistoryGrows(s: State, e: Event, wants: seq<HTTPRoute>)
    ensures var t := Step(s, e, wants);
            forall r :: r in t.history ==>
              r in s.history || (KeyOf(r) in t.server.routes && t.server.routes[KeyOf(r)] == r)
  {
  }

  /** A pass may begin at any moment of a run, whatever is still pending. */
  ghost predicate SeenBy(s: State, w: World) {
    s.server == w.server && s.indexer == w.indexer
  }

  lemma SeenSoundly(s: State, w: World, wants: seq<HTTPRoute>)
    requires Inv(s, wants) && SeenBy(s, w)
    ensures Sound(w)
    ensures Honest(s, wants) ==> NoFalseFresh(w, wants)
  {
    forall k | k in w.indexer ensures Lagging(w.server, w.indexer[k]) {
      assert Past(s.server, w.indexer[k]);
    }
    forall i | 0 <= i < |wants| && CachedDesired(w, wants[i])
      ensures Honest(s, wants) ==> Desired(w.server, wants[i])
    {
      assert NamespaceOk(wants[i].namespace);
      ListerIsKeyed(w.indexer, wants[i].namespace, wants[i].name);
    }
  }

  /** A run that begins honestly never shows a lie, at any moment of any continuation; and one that does
      not has a continuation that does: the dishonest state has only to reach the cache. */
  lemma HonestExactly(s: State, wants: seq<HTTPRoute>)
    requires Start(s, wants)
    ensures Honest(s, wants) <==>
            forall events, w :: SeenBy(Run(s, events, wants), w) ==> NoFalseFresh(w, wants)
  {
    if Honest(s, wants) {
      forall events, w | SeenBy(Run(s, events, wants), w) ensures NoFalseFresh(w, wants) {
        AlwaysSafe(s, events, wants);
        StartInv(s, wants);
        HonestForever(s, events, wants);
        SeenSoundly(Run(s, events, wants), w, wants);
      }
    } else {
      var r, i :| r in s.history && 0 <= i < |wants| && KeyOf(wants[i]) == KeyOf(r) && SameContent(r, wants[i])
                  && !Desired(s.server, wants[i]);
      var events := LieArrives(s, wants, r, i);
      var w := World(s.server, Run(s, events, wants).indexer, 0, []);
      assert CachedDesired(w, wants[i]) && !Desired(w.server, wants[i]);
      assert SeenBy(Run(s, events, wants), w) && !NoFalseFresh(w, wants);
    }
  }

  /** A state on the way to the cache may reach it: as the news it is, or, if the cache shows a later one,
      after a notice that the route was deleted. */
  lemma LieArrives(s: State, wants: seq<HTTPRoute>, r: HTTPRoute, i: nat) returns (events: seq<Event>)
    requires Start(s, wants) && r in s.history && i < |wants| && KeyOf(wants[i]) == KeyOf(r)
    ensures Run(s, events, wants).server == s.server
    ensures ListerGet(Run(s, events, wants).indexer, wants[i].namespace, wants[i].name) == Some(r)
  {
    assert Past(s.server, r);
    events := [DeliverAbsence(KeyOf(r)), Deliver(r)];
    assert events[..1] == [events[0]] && [events[0]][..0] == [];
    assert Run(s, [events[0]], wants) == Step(s, events[0], wants);
  }

  /** At every moment of every run, a pass that meets no error, however stale its cache, leaves every
      rule's route desired exactly when its cache tells no lie; and in a run that began honestly no
      cache ever tells one. */
  lemma EveryCleanPassConverges(
      s: State, events: seq<Event>, wants: seq<HTTPRoute>, w: World, fault: nat -> Option<Fault>)
    requires Start(s, wants) && SeenBy(Run(s, events, wants), w) && RunWants(w, fault, wants).err.None?
    ensures AllDesired(RunWants(w, fault, wants).world.server, wants) <==> NoFalseFresh(w, wants)
    ensures Honest(s, wants) ==> AllDesired(RunWants(w, fault, wants).world.server, wants)
  {
    AlwaysSafe(s, events, wants);
    StartInv(s, wants);
    if Honest(s, wants) { HonestForever(s, events, wants); }
    SeenSoundly(Run(s, events, wants), w, wants);
    ConvergesExactly(w, fault, wants);
  }

  /** And once the watch events of the Ingress's names are in, whatever else is pending, one pass that
      meets no fault completes and leaves every rule's route desired. */
  lemma CaughtUpPassFinishes(
      s: State, events: seq<Event>, wants: seq<HTTPRoute>, w: World, calm: nat -> Option<Fault>)
    requires Start(s, wants) && SeenBy(Run(s, events, wants), w) && CaughtUp(w, wants)
    requires Distinct(wants) && Faultless(calm)
    ensures RunWants(w, calm, wants).err.None? && AllDesired(RunWants(w, calm, wants).world.server, wants)
  {
    AlwaysSafe(s, events, wants);
    SeenSoundly(Run(s, events, wants), w, wants);
    CalmRunSettles(w, calm, wants);
  }

  // ---------- A pass that reads the live cache ----------

  /** What happens around one rule of a pass: before it is read, and, if that calls for a write, before
      the write, at `index` among the pending ones, is made. */
  datatype Turn = Turn(before: seq<Event>, between: seq<Event>, index: nat)

  function Needed(s: State, want: HTTPRoute): Option<Write> {
    Decide(ListerGet(s.indexer, want.namespace, want.name), want)
  }

  function TurnEvents(s: State, wants: seq<HTTPRoute>, i: nat, t: Turn): seq<Event>
    requires i < |wants|
  {
    t.before + [Observe(i)] +
    if Needed(Run(s, t.before, wants), wants[i]).None? then [] else t.between + [Commit(t.index, true)]
  }

  /** The rule meets no error: the write it calls for is the one that is made, and the server accepts it. */
  ghost predicate CleanTurn(s: State, wants: seq<HTTPRoute>, i: nat, t: Turn)
    requires i < |wants|
  {
    var d := Needed(Run(s, t.before, wants), wants[i]);
    d.Some? ==>
      var s1 := Run(s, t.before + [Observe(i)] + t.between, wants);
      t.index < |s1.pending| && s1.pending[t.index] == d.value && Refusal(s1.server, d.value).None?
  }

  /** Where the state stands after the first rules of a pass, one turn each. */
  function AfterTurns(s: State, wants: seq<HTTPRoute>, turns: seq<Turn>): State
    requires |turns| <= |wants|
  {
    if turns == [] then s
    else
      var n := |turns| - 1;
      var s1 := AfterTurns(s, wants, turns[..n]);
      Run(s1, TurnEvents(s1, wants, n, turns[n]), wants)
  }

  ghost predicate CleanTurns(s: State, wants: seq<HTTPRoute>, turns: seq<Turn>)
    requires |turns| <= |wants|
  {
    turns != [] ==>
      var n := |turns| - 1;
      CleanTurns(s, wants, turns[..n]) && CleanTurn(AfterTurns(s, wants, turns[..n]), wants, n, turns[n])
  }

  lemma RunLast(s: State, events: seq<Event>, e: Event, wants: seq<HTTPRoute>)
    ensures Run(s, events + [e], wants) == Step(Run(s, events, wants), e, wants)
  {
    assert (events + [e])[..|events|] == events;
  }

  /** What a write needed for a rule stores is the rule's desired content under its name. */
  lemma NeededIsWanted(s: State, want: HTTPRoute)
    requires WellIndexed(s.indexer) && NamespaceOk(want.namespace) && Needed(s, want).Some?
    ensures KeyOf(Needed(s, want).value.route) == KeyOf(want) && SameContent(Needed(s, want).value.route, want)
  {
    ListerIsKeyed(s.indexer, want.namespace, want.name);
  }

  /** A rule read as desired is desired. */
  lemma IdleTurnSettles(s: State, wants: seq<HTTPRoute>, i: nat)
    requires Inv(s, wants) && Honest(s, wants) && i < |wants| && Needed(s, wants[i]).None?
    ensures Step(s, Observe(i), wants) == s && Desired(s.server, wants[i])
  {
    assert NamespaceOk(wants[i].namespace);
    ListerIsKeyed(s.indexer, wants[i].namespace, wants[i].name);
  }

  lemma CommitSettles(s: State, wants: seq<HTTPRoute>, w: Write, index: nat, want: HTTPRoute)
    requires index < |s.pending| && s.pending[index] == w && Refusal(s.server, w).None?
    requires KeyOf(w.route) == KeyOf(want) && SameContent(w.route, want)
    ensures Desired(Step(s, Commit(index, true), wants).server, want)
  {
  }

  lemma TurnSettles(s: State, wants: seq<HTTPRoute>, i: nat, t: Turn)
    requires Inv(s, wants) && Honest(s, wants) && i < |wants| && CleanTurn(s, wants, i, t)
    ensures Desired(Run(s, TurnEvents(s, wants, i, t), wants).server, wants[i])
  {
    var s0, d := Run(s, t.before, wants), Needed(Run(s, t.before, wants), wants[i]);
    RunSafe(s, t.before, wants);
    HonestForever(s, t.before, wants);
    if d.None? {
      assert TurnEvents(s, wants, i, t) == t.before + [Observe(i)];
      RunLast(s, t.before, Observe(i), wants);
      IdleTurnSettles(s0, wants, i);
    } else {
      var events := t.before + [Observe(i)] + t.between;
      assert TurnEvents(s, wants, i, t) == events + [Commit(t.index, true)];
      RunLast(s, events, Commit(t.index, true), wants);
      assert NamespaceOk(wants[i].namespace);
      NeededIsWanted(s0, wants[i]);
      CommitSettles(Run(s, events, wants), wants, d.value, t.index, wants[i]);
    }
  }

  lemma TurnKeeps(s: State, wants: seq<HTTPRoute>, i: nat, t: Turn)
    requires Inv(s, wants) && Honest(s, wants) && i < |wants|
    ensures var s1 := Run(s, TurnEvents(s, wants, i, t), wants);
            Inv(s1, wants) && Honest(s1, wants) && Evolved(s.server, s1.server, wants)
  {
    RunSafe(s, TurnEvents(s, wants, i, t), wants);
    HonestForever(s, TurnEvents(s, wants, i, t), wants);
  }

  ghost predicate AllSettled(s: State, wants: seq<HTTPRoute>, n: nat) {
    Inv(s, wants) && Honest(s, wants) && forall i :: 0 <= i < n <= |wants| ==> Desired(s.server, wants[i])
  }

  lemma OneMoreSettled(s: State, wants: seq<HTTPRoute>, n: nat, t: Turn)
    requires AllSettled(s, wants, n) && n < |wants| && CleanTurn(s, wants, n, t)
    ensures AllSettled(Run(s, TurnEvents(s, wants, n, t), wants), wants, n + 1)
  {
    TurnKeeps(s, wants, n, t);
    TurnSettles(s, wants, n, t);
  }

  lemma {:induction false} TurnsSettle(s: State, wants: seq<HTTPRoute>, turns: seq<Turn>)
    requires Inv(s, wants) && Honest(s, wants) && |turns| <= |wants| && CleanTurns(s, wants, turns)
    ensures AllSettled(AfterTurns(s, wants, turns), wants, |turns|)
    decreases |turns|
  {
    if turns != [] {
      var n := |turns| - 1;
      TurnsSettle(s, wants, turns[..n]);
      OneMoreSettled(AfterTurns(s, wants, turns[..n]), wants, n, turns[n]);
    }
  }

  /** The code reads the live cache for every rule, with anything at all happening around its reads and
      writes. From an honest start such a pass, begun at any moment of any run, leaves every rule's
      route desired if it meets no error. */
  lemma EveryLivePassConverges(s: State, events: seq<Event>, wants: seq<HTTPRoute>, turns: seq<Turn>)
    requires Start(s, wants) && Honest(s, wants) && |turns| == |wants|
    requires CleanTurns(Run(s, events, wants), wants, turns)
    ensures AllDesired(AfterTurns(Run(s, events, wants), wants, turns).server, wants)
  {
    StartInv(s, wants);
    RunSafe(s, events, wants);
    HonestForever(s, events, wants);
    TurnsSettle(Run(s, events, wants), wants, turns);
  }

  /** From every state some run ends with every rule desired: deliver, observe and commit the
      undesired ones. */
  lemma {:induction false} CanFinish(s: State, wants: seq<HTTPRoute>) returns (events: seq<Event>)
    requires Inv(s, wants)
    ensures AllDesired(Run(s, events, wants).server, wants)
    decreases |Undesired(s.server, wants)|
  {
    if AllDesired(s.server, wants) {
      events := [];
    } else {
      var i :| 0 <= i < |wants| && !Desired(s.server, wants[i]);
      var three := FixOne(s, wants, i);
      var rest := CanFinish(Run(s, three, wants), wants);
      events := three + rest;
      RunAppend(s, three, rest, wants);
    }
  }

  lemma FixOne(s: State, wants: seq<HTTPRoute>, i: nat) returns (events: seq<Event>)
    requires Inv(s, wants) && i < |wants| && !Desired(s.server, wants[i])
    ensures Inv(Run(s, events, wants), wants)
    ensures |Undesired(Run(s, events, wants).server, wants)| < |Undesired(s.server, wants)|
  {
    var deliver := Update(s, KeyOf(wants[i]));
    var s1 := Step(s, deliver, wants);
    StepSafe(s, deliver, wants);
    FreshRead(s, wants, i);
    var s2 := Step(s1, Observe(i), wants);
    ObserveKeeps(s1, i, wants);
    var j := |s1.pending|;
    assert |s2.pending| == j + 1 && Refusal(s2.server, s2.pending[j]).None?;
    CommitEffect(s2, j, wants);
    events := [deliver, Observe(i), Commit(j, true)];
    RunThree(s, deliver, Observe(i), Commit(j, true), wants);
  }

  lemma RunThree(s: State, a: Event, b: Event, c: Event, wants: seq<HTTPRoute>)
    ensures Run(s, [a, b, c], wants) == Step(Step(Step(s, a, wants), b, wants), c, wants)
  {
    assert [a, b, c][..2] == [a, b] && [a, b][..1] == [a] && [a][..0] == [];
    assert Run(s, [a], wants) == Step(s, a, wants);
    assert Run(s, [a, b], wants) == Step(Step(s, a, wants), b, wants);
  }

  /** The watch event that tells the informer the present state of a key. */
  function Update(s: State, k: Key): Event {
    if k in s.server.routes then Deliver(s.server.routes[k]) else DeliverAbsence(k)
  }

  /** Once it has been delivered, the cache shows just what the server holds. */
  lemma FreshRead(s: State, wants: seq<HTTPRoute>, i: nat)
    requires Inv(s, wants) && i < |wants|
    ensures var (k, t) := (KeyOf(wants[i]), Step(s, Update(s, KeyOf(wants[i])), wants));
            && t.server == s.server && t.pending == s.pending
            && ListerGet(t.indexer, wants[i].namespace, wants[i].name) ==
                 if k in s.server.routes then Some(s.server.routes[k]) else None
  {
    var want := wants[i];
    assert NamespaceOk(want.namespace);
    ListerIsKeyed(s.indexer, want.namespace, want.name);
    var c := ListerGet(s.indexer, want.namespace, want.name);
    if c.Some? { assert Past(s.server, c.value); }
    if KeyOf(want) in s.server.routes { assert Past(s.server, s.server.routes[KeyOf(want)]); }
  }

  lemma {:induction false} RunAppend(s: State, a: seq<Event>, b: seq<Event>, wants: seq<HTTPRoute>)
    ensures Run(s, a + b, wants) == Run(Run(s, a, wants), b, wants)
    decreases |b|
  {
    if b == [] {
      assert a + b == a;
    } else {
      var front := b[..|b| - 1];
      RunAppend(s, a, front, wants);
      assert (a + b)[..|a + b| - 1] == a + front;
    }
  }

  // ---------- A pass is a run ----------

  /** `s` is the state of the world `w` with nothing pending. */
  ghost predicate Shows(s: State, w: World) {
    s.server == w.server && s.indexer == w.indexer && s.pending == []
  }

  lemma StepIsRun(s: State, w: World, fault: nat -> Option<Fault>, wants: seq<HTTPRoute>, i: nat)
    returns (events: seq<Event>)
    requires Shows(s, w) && i < |wants|
    ensures var (w1, t) := (ReconcileRoute(w, fault, wants[i]).0, Run(s, events, wants));
            Shows(t, w1) && t.writes - s.writes == |w1.writes| - |w.writes|
  {
    var d := Decide(Cached(w, wants[i]), wants[i]);
    assert [Observe(i)][..0] == [];
    assert Run(s, [Observe(i)], wants) == Step(s, Observe(i), wants);
    if d.None? {
      events := [Observe(i)];
    } else {
      var f := fault(w.calls);
      var commit := Commit(0, !(f.Some? && f.value.CallLost?));
      events := [Observe(i), commit];
      assert events[..1] == [Observe(i)];
      assert Step(s, Observe(i), wants).pending == [d.value];
    }
  }

  /** A reconcile pass, with whatever faults it meets, is one of the runs above: what holds of
      every run holds of every sequence of passes, complete or cut short. */
  lemma {:induction false} PassIsRun(s: State, w: World, fault: nat -> Option<Fault>, wants: seq<HTTPRoute>, i: nat)
    returns (events: seq<Event>)
    requires Shows(s, w) && i <= |wants|
    ensures var (w1, t) := (RunWants(w, fault, wants[i..]).world, Run(s, events, wants));
            Shows(t, w1) && t.writes - s.writes == |w1.writes| - |w.writes|
    decreases |wants| - i
  {
    if i == |wants| {
      events := [];
    } else {
      events := StepIsRun(s, w, fault, wants, i);
      var (w1, r) := ReconcileRoute(w, fault, wants[i]);
      assert wants[i..][1..] == wants[i + 1..] && wants[i..][0] == wants[i];
      if r.Ok? {
        var rest := PassIsRun(Run(s, events, wants), w1, fault, wants, i + 1);
        RunAppend(s, events, rest, wants);
        events := events + rest;
      }
    }
  }
}

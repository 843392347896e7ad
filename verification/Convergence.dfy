/** What passes achieve: convergence, idempotence, framing, and retry after a failure. */
module Convergence {

  import opened Wrappers
  import opened GoStrings
  import opened GatewayApi
  import opened Status
  import opened Protocol

  // ---------- States ----------

  ghost predicate WellKept(s: Server) {
    forall k :: k in s.routes ==> KeyOf(s.routes[k]) == k && s.routes[k].version <= s.revision
  }

  /** A resource version names one state of an object, and the cache holds no version from the future. */
  ghost predicate Lagging(s: Server, r: HTTPRoute) {
    && r.version <= s.revision
    && (KeyOf(r) in s.routes && s.routes[KeyOf(r)].version == r.version ==> s.routes[KeyOf(r)] == r)
  }

  ghost predicate Sound(w: World) {
    WellKept(w.server) && WellIndexed(w.indexer) && forall k :: k in w.indexer ==> Lagging(w.server, w.indexer[k])
  }

  ghost predicate Proper(wants: seq<HTTPRoute>) {
    forall i :: 0 <= i < |wants| ==> NamespaceOk(wants[i].namespace)
  }

  ghost predicate Desired(s: Server, want: HTTPRoute) {
    KeyOf(want) in s.routes && SameContent(s.routes[KeyOf(want)], want)
  }

  ghost predicate AllDesired(s: Server, wants: seq<HTTPRoute>) {
    forall i :: 0 <= i < |wants| ==> Desired(s, wants[i])
  }

  ghost predicate CachedDesired(w: World, want: HTTPRoute) {
    Cached(w, want).Some? && SameContent(Cached(w, want).value, want)
  }

  /** Rules that share a route name want the same route. Rules with disjoint hosts do. */
  ghost predicate Compatible(wants: seq<HTTPRoute>) {
    forall i, j :: 0 <= i < j < |wants| && KeyOf(wants[i]) == KeyOf(wants[j]) ==> SameContent(wants[i], wants[j])
  }

  ghost predicate Distinct(wants: seq<HTTPRoute>) {
    forall i, j :: 0 <= i < j < |wants| ==> KeyOf(wants[i]) != KeyOf(wants[j])
  }

  /** The cache never shows as desired what the server no longer holds as desired. */
  ghost predicate NoFalseFresh(w: World, wants: seq<HTTPRoute>) {
    forall i :: 0 <= i < |wants| && CachedDesired(w, wants[i]) ==> Desired(w.server, wants[i])
  }

  ghost predicate CaughtUpOn(w: World, want: HTTPRoute) {
    Cached(w, want) == if KeyOf(want) in w.server.routes then Some(w.server.routes[KeyOf(want)]) else None
  }

  ghost predicate CaughtUp(w: World, wants: seq<HTTPRoute>) {
    forall i :: 0 <= i < |wants| ==> CaughtUpOn(w, wants[i])
  }

  ghost predicate Faultless(fault: nat -> Option<Fault>) {
    forall n: nat :: fault(n).None?
  }

  // ---------- One step ----------

  /** A call either leaves the server alone or stores its route, and logs just the latter. */
  lemma CallEffect(w: World, fault: nat -> Option<Fault>, wr: Write)
    ensures var (w1, r) := Call(w, fault, wr);
            && w1.indexer == w.indexer && w1.calls == w.calls + 1
            && (w1.server == w.server ==> r.Err? && w1.writes == w.writes)
            && (r.Ok? ==> w1.server != w.server && r.value == w1.server.routes[KeyOf(wr.route)])
            && (r.Err? && w1.server != w.server ==> r.error.Unavailable?)
            && (w1.server != w.server ==>
                  && Refusal(w.server, wr).None?
                  && w1.server == Store(w.server, wr.route) && w1.writes == w.writes + [KeyOf(wr.route)])
  {
  }

  lemma StoreSound(w: World, w1: World, r: HTTPRoute)
    requires Sound(w) && w1.indexer == w.indexer && w1.server == Store(w.server, r)
    ensures Sound(w1)
  {
    forall k | k in w1.indexer ensures Lagging(w1.server, w1.indexer[k]) {
      assert Lagging(w.server, w.indexer[k]);
    }
  }

  /** What is written for a rule is its own route: new, or the stored one with the wanted content. */
  lemma WriteIsOwn(w: World, want: HTTPRoute)
    requires Sound(w) && NamespaceOk(want.namespace) && !CachedDesired(w, want)
    ensures var d := Decide(Cached(w, want), want);
            && d.Some? && KeyOf(d.value.route) == KeyOf(want) && SameContent(d.value.route, want)
            && (Refusal(w.server, d.value).None? && KeyOf(want) in w.server.routes ==>
                  && Cached(w, want) == Some(w.server.routes[KeyOf(want)])
                  && d.value.route == WithContent(w.server.routes[KeyOf(want)], want))
  {
    ListerIsKeyed(w.indexer, want.namespace, want.name);
    var c := Cached(w, want);
    if c.Some? {
      assert Lagging(w.server, c.value);
    }
  }

  /** A step touches only its own key, keeps what an update must keep, and on success leaves the
      desired content, at once or already (unless the cache lied). */
  lemma StepEffect(w: World, fault: nat -> Option<Fault>, want: HTTPRoute)
    requires Sound(w) && NamespaceOk(want.namespace)
    ensures var (w1, r) := ReconcileRoute(w, fault, want);
            && Sound(w1) && w1.indexer == w.indexer && w.server.routes.Keys <= w1.server.routes.Keys
            && (forall k :: k in w1.server.routes && k != KeyOf(want) ==>
                  k in w.server.routes && w1.server.routes[k] == w.server.routes[k])
            && (w1.server != w.server ==>
                  Desired(w1.server, want) && !CachedDesired(w, want) && w1.writes == w.writes + [KeyOf(want)])
            && (w1.server == w.server ==> w1.writes == w.writes)
            && (CachedDesired(w, want) <==> w1 == w)
            && (r.Ok? && !CachedDesired(w, want) ==> w1.server != w.server && r.value == w1.server.routes[KeyOf(want)])
            && (r.Err? && w1.server != w.server ==> r.error.Unavailable?)
            && (CachedDesired(w, want) ==> r == Ok(Cached(w, want).value))
            && (KeyOf(want) in w.server.routes && w1.server != w.server ==>
                  && Cached(w, want) == Some(w.server.routes[KeyOf(want)])
                  && w1.server.routes[KeyOf(want)] ==
                       WithContent(w.server.routes[KeyOf(want)], want).(version := w.server.revision + 1))
  {
    if !CachedDesired(w, want) {
      WriteIsOwn(w, want);
      var wr := Decide(Cached(w, want), want).value;
      CallEffect(w, fault, wr);
      var w1 := Call(w, fault, wr).0;
      if w1.server != w.server { StoreSound(w, w1, wr.route); }
    }
  }

  /** Field by field: a route that a step changes gets the wanted spec, labels and annotations and a new
      version, and keeps its name, its owners and its status; one that a step adds is the wanted one. */
  lemma StepFields(w: World, fault: nat -> Option<Fault>, want: HTTPRoute)
    requires Sound(w) && NamespaceOk(want.namespace) && ReconcileRoute(w, fault, want).0.server != w.server
    ensures var k, s1 := (want.namespace, want.name), ReconcileRoute(w, fault, want).0.server;
            && k in s1.routes
            && var now := s1.routes[k];
            && now.spec == want.spec && now.labels == want.labels && now.annotations == want.annotations
            && (k in w.server.routes ==>
                  var was := w.server.routes[k];
                  && now.name == was.name && now.namespace == was.namespace && now.owners == was.owners
                  && now.gateways == was.gateways && now.version > was.version)
            && (k !in w.server.routes ==> now == want.(version := now.version))
  {
    StepEffect(w, fault, want);
    WriteIsOwn(w, want);
    CallEffect(w, fault, Decide(Cached(w, want), want).value);
    ListerIsKeyed(w.indexer, want.namespace, want.name);
  }

  // ---------- Framing ----------

  /** A pass writes only under the names it wants, whatever fails on the way. */
  lemma {:induction false} RunFrame(w: World, fault: nat -> Option<Fault>, wants: seq<HTTPRoute>)
    requires Sound(w) && Proper(wants)
    ensures var w1 := RunWants(w, fault, wants).world;
            && Sound(w1) && w1.indexer == w.indexer && w.server.routes.Keys <= w1.server.routes.Keys
            && (forall k :: k in w1.server.routes && (forall i :: 0 <= i < |wants| ==> k != KeyOf(wants[i])) ==>
                  k in w.server.routes && w1.server.routes[k] == w.server.routes[k])
    decreases |wants|
  {
    if wants != [] {
      StepEffect(w, fault, wants[0]);
      var (w1, r) := ReconcileRoute(w, fault, wants[0]);
      if r.Ok? {
        RunFrame(w1, fault, wants[1..]);
        forall k | k in RunWants(w, fault, wants).world.server.routes
                   && (forall i :: 0 <= i < |wants| ==> k != KeyOf(wants[i]))
          ensures k in w.server.routes && RunWants(w, fault, wants).world.server.routes[k] == w.server.routes[k]
        {
          assert forall i :: 0 <= i < |wants[1..]| ==> wants[1..][i] == wants[i + 1];
          assert k != KeyOf(wants[0]);
        }
      }
    }
  }

  ghost predicate AgreesWith(x: HTTPRoute, wants: seq<HTTPRoute>) {
    forall i :: 0 <= i < |wants| && KeyOf(wants[i]) == KeyOf(x) ==> SameContent(wants[i], x)
  }

  /** What is desired stays desired while rules that agree with it run. */
  lemma {:induction false} DesiredPersists(w: World, fault: nat -> Option<Fault>, wants: seq<HTTPRoute>, x: HTTPRoute)
    requires Sound(w) && Proper(wants) && Desired(w.server, x) && AgreesWith(x, wants)
    ensures Desired(RunWants(w, fault, wants).world.server, x)
    decreases |wants|
  {
    if wants != [] {
      StepEffect(w, fault, wants[0]);
      var (w1, r) := ReconcileRoute(w, fault, wants[0]);
      assert Desired(w1.server, x);
      if r.Ok? { DesiredPersists(w1, fault, wants[1..], x); }
    }
  }

  /** A name whose every rule is satisfied by the cache is not written. */
  lemma {:induction false} SatisfiedUntouched(
      w: World, fault: nat -> Option<Fault>, wants: seq<HTTPRoute>, x: HTTPRoute)
    requires Sound(w) && Proper(wants) && CachedDesired(w, x) && AgreesWith(x, wants)
    ensures Desired(RunWants(w, fault, wants).world.server, x) ==> Desired(w.server, x)
    decreases |wants|
  {
    if wants != [] {
      StepEffect(w, fault, wants[0]);
      var (w1, r) := ReconcileRoute(w, fault, wants[0]);
      assert KeyOf(wants[0]) == KeyOf(x) ==> CachedDesired(w, wants[0]);
      assert Desired(w1.server, x) ==> Desired(w.server, x);
      if r.Ok? { SatisfiedUntouched(w1, fault, wants[1..], x); }
    }
  }

  // ---------- Convergence ----------

  lemma {:induction false} Converges(w: World, fault: nat -> Option<Fault>, wants: seq<HTTPRoute>)
    requires Sound(w) && Proper(wants) && Compatible(wants) && NoFalseFresh(w, wants)
    requires RunWants(w, fault, wants).err.None?
    ensures AllDesired(RunWants(w, fault, wants).world.server, wants)
    decreases |wants|
  {
    if wants != [] {
      StepEffect(w, fault, wants[0]);
      var (w1, r) := ReconcileRoute(w, fault, wants[0]);
      var rest := wants[1..];
      assert forall i :: 0 <= i < |rest| ==> rest[i] == wants[i + 1];
      assert Desired(w1.server, wants[0]) by { if CachedDesired(w, wants[0]) { assert Desired(w.server, wants[0]); } }
      assert NoFalseFresh(w1, rest) by {
        forall i | 0 <= i < |rest| && CachedDesired(w1, rest[i]) ensures Desired(w1.server, rest[i]) {
          assert CachedDesired(w, wants[i + 1]) && Desired(w.server, wants[i + 1]);
        }
      }
      Converges(w1, fault, rest);
      DesiredPersists(w1, fault, rest, wants[0]);
      forall i | 0 <= i < |wants| ensures Desired(RunWants(w, fault, wants).world.server, wants[i]) {
        if i > 0 { assert wants[i] == rest[i - 1]; }
      }
    }
  }

  /** An error-free pass leaves every rule's desired route on the server exactly when rules that
      share a name agree and the cache was not falsely fresh. */
  lemma ConvergesExactly(w: World, fault: nat -> Option<Fault>, wants: seq<HTTPRoute>)
    requires Sound(w) && Proper(wants) && RunWants(w, fault, wants).err.None?
    ensures AllDesired(RunWants(w, fault, wants).world.server, wants) <==>
              Compatible(wants) && NoFalseFresh(w, wants)
  {
    var s := RunWants(w, fault, wants).world.server;
    if AllDesired(s, wants) {
      forall i, j | 0 <= i < j < |wants| && KeyOf(wants[i]) == KeyOf(wants[j]) ensures SameContent(wants[i], wants[j]) {
        assert Desired(s, wants[i]) && Desired(s, wants[j]);
      }
      forall i | 0 <= i < |wants| && CachedDesired(w, wants[i]) ensures Desired(w.server, wants[i]) {
        assert Desired(s, wants[i]);
        SatisfiedUntouched(w, fault, wants, wants[i]);
      }
    } else if Compatible(wants) && NoFalseFresh(w, wants) {
      Converges(w, fault, wants);
    }
  }

  /** The same of the three fields themselves: an error-free pass leaves every rule's name with the spec,
      the labels and the annotations it wants exactly when rules that share a name want the same three, and
      no cached route had the wanted three while the stored one, if any, had not. */
  lemma FieldsConvergeExactly(w: World, fault: nat -> Option<Fault>, wants: seq<HTTPRoute>)
    requires Sound(w) && Proper(wants) && RunWants(w, fault, wants).err.None?
    ensures var s1 := RunWants(w, fault, wants).world.server;
            (forall i :: 0 <= i < |wants| ==>
               var k := (wants[i].namespace, wants[i].name);
               && k in s1.routes && s1.routes[k].spec == wants[i].spec
               && s1.routes[k].labels == wants[i].labels && s1.routes[k].annotations == wants[i].annotations)
            <==>
            && (forall i, j :: 0 <= i < j < |wants|
                               && wants[i].namespace == wants[j].namespace && wants[i].name == wants[j].name ==>
                  && wants[i].spec == wants[j].spec
                  && wants[i].labels == wants[j].labels && wants[i].annotations == wants[j].annotations)
            && (forall i :: 0 <= i < |wants| ==>
                  var k, c := (wants[i].namespace, wants[i].name), Cached(w, wants[i]);
                  c.Some? && c.value.spec == wants[i].spec
                  && c.value.labels == wants[i].labels && c.value.annotations == wants[i].annotations ==>
                    && k in w.server.routes && w.server.routes[k].spec == wants[i].spec
                    && w.server.routes[k].labels == wants[i].labels
                    && w.server.routes[k].annotations == wants[i].annotations)
  {
    ConvergesExactly(w, fault, wants);
    var s1 := RunWants(w, fault, wants).world.server;
    assert AllDesired(s1, wants) <==>
           forall i :: 0 <= i < |wants| ==>
             var k := (wants[i].namespace, wants[i].name);
             && k in s1.routes && s1.routes[k].spec == wants[i].spec
             && s1.routes[k].labels == wants[i].labels && s1.routes[k].annotations == wants[i].annotations;
    assert NoFalseFresh(w, wants) <==>
           forall i :: 0 <= i < |wants| ==>
             var k, c := (wants[i].namespace, wants[i].name), Cached(w, wants[i]);
             c.Some? && c.value.spec == wants[i].spec
             && c.value.labels == wants[i].labels && c.value.annotations == wants[i].annotations ==>
               && k in w.server.routes && w.server.routes[k].spec == wants[i].spec
               && w.server.routes[k].labels == wants[i].labels
               && w.server.routes[k].annotations == wants[i].annotations;
  }

  /** The one way in which a cache can defeat an error-free pass: it shows a past state that happens
      to be the desired one, so nothing is written, whatever the server holds by now. */
  lemma FalselyFreshHides(w: World, fault: nat -> Option<Fault>, want: HTTPRoute)
    requires Sound(w) && NamespaceOk(want.namespace) && CachedDesired(w, want) && !Desired(w.server, want)
    ensures RunWants(w, fault, [want]).err.None? && RunWants(w, fault, [want]).world == w
  {
    StepEffect(w, fault, want);
    assert [want][1..] == [];
  }

  // ---------- Idempotence ----------

  /** A pass succeeds without writing exactly when the cache shows every rule's desired route;
      it then makes no call at all. */
  lemma {:induction false} QuietExactly(w: World, fault: nat -> Option<Fault>, wants: seq<HTTPRoute>)
    requires Sound(w) && Proper(wants)
    ensures |RunWants(w, fault, wants).world.writes| >= |w.writes|
    ensures (RunWants(w, fault, wants).err.None? && RunWants(w, fault, wants).world.writes == w.writes)
            <==> (forall i :: 0 <= i < |wants| ==> CachedDesired(w, wants[i]))
    ensures (forall i :: 0 <= i < |wants| ==> CachedDesired(w, wants[i])) ==> RunWants(w, fault, wants).world == w
    decreases |wants|
  {
    if wants != [] {
      StepEffect(w, fault, wants[0]);
      var (w1, r) := ReconcileRoute(w, fault, wants[0]);
      var rest := wants[1..];
      assert forall i :: 0 <= i < |rest| ==> rest[i] == wants[i + 1];
      if r.Ok? {
        QuietExactly(w1, fault, rest);
        if CachedDesired(w, wants[0]) {
          assert (forall i :: 0 <= i < |wants| ==> CachedDesired(w, wants[i])) <==>
                 (forall i :: 0 <= i < |rest| ==> CachedDesired(w1, rest[i]));
        }
      } else {
        assert !CachedDesired(w, wants[0]);
      }
    }
  }

  /** In the fields themselves: a pass succeeds without writing exactly when every rule's name is cached
      with the spec, the labels and the annotations it wants. */
  lemma FieldsQuietExactly(w: World, fault: nat -> Option<Fault>, wants: seq<HTTPRoute>)
    requires Sound(w) && Proper(wants)
    ensures var out := RunWants(w, fault, wants);
            (out.err.None? && out.world.writes == w.writes) <==>
            forall i :: 0 <= i < |wants| ==>
              var c := Cached(w, wants[i]);
              && c.Some? && c.value.spec == wants[i].spec
              && c.value.labels == wants[i].labels && c.value.annotations == wants[i].annotations
  {
    QuietExactly(w, fault, wants);
    assert (forall i :: 0 <= i < |wants| ==> CachedDesired(w, wants[i])) <==>
           forall i :: 0 <= i < |wants| ==>
             var c := Cached(w, wants[i]);
             && c.Some? && c.value.spec == wants[i].spec
             && c.value.labels == wants[i].labels && c.value.annotations == wants[i].annotations;
  }

  /** `w2` is a world whose cache has caught up with the server `s`. */
  ghost predicate Resynced(w2: World, s: Server, wants: seq<HTTPRoute>) {
    Sound(w2) && w2.server == s && CaughtUp(w2, wants)
  }

  /** After an error-free pass and a cache that caught up, the next pass is quiet exactly when the
      rules were compatible and the first pass's cache told no lie; else it keeps on writing or failing. */
  lemma SecondPassQuietExactly(
      w: World, fault: nat -> Option<Fault>, wants: seq<HTTPRoute>, w2: World, fault2: nat -> Option<Fault>)
    requires Sound(w) && Proper(wants) && RunWants(w, fault, wants).err.None?
    requires Resynced(w2, RunWants(w, fault, wants).world.server, wants)
    ensures var out2 := RunWants(w2, fault2, wants);
            (out2.err.None? && out2.world.writes == w2.writes) <==> Compatible(wants) && NoFalseFresh(w, wants)
    ensures var out2 := RunWants(w2, fault2, wants);
            Compatible(wants) && NoFalseFresh(w, wants) ==> out2.world == w2
  {
    ConvergesExactly(w, fault, wants);
    QuietExactly(w2, fault2, wants);
    forall i | 0 <= i < |wants| ensures CachedDesired(w2, wants[i]) <==> Desired(w2.server, wants[i]) {
      assert CaughtUpOn(w2, wants[i]);
    }
  }

  // ---------- The frozen cache, and retry ----------

  function Settled(s: Server, want: HTTPRoute): HTTPRoute {
    if KeyOf(want) in s.routes then WithContent(s.routes[KeyOf(want)], want) else want
  }

  ghost function SettleOne(s: Server, want: HTTPRoute): (s1: Server)
    requires WellKept(s)
    ensures WellKept(s1) && Desired(s1, want)
  {
    if Desired(s, want) then s else Store(s, Settled(s, want))
  }

  /** Bringing a server up to date one rule at a time, always reading the server itself. */
  ghost function Settle(s: Server, wants: seq<HTTPRoute>): (s1: Server)
    requires WellKept(s)
    ensures WellKept(s1)
    decreases |wants|
  {
    if wants == [] then s else Settle(SettleOne(s, wants[0]), wants[1..])
  }

  lemma StepSettles(w: World, fault: nat -> Option<Fault>, want: HTTPRoute, rest: seq<HTTPRoute>)
    requires Sound(w) && NamespaceOk(want.namespace) && NoFalseFresh(w, rest)
    requires CachedDesired(w, want) ==> Desired(w.server, want)
    requires forall i :: 0 <= i < |rest| ==> KeyOf(rest[i]) != KeyOf(want)
    ensures var (w1, r) := ReconcileRoute(w, fault, want);
            && NoFalseFresh(w1, rest)
            && (w1.server == SettleOne(w.server, want) || (w1.server == w.server && r.Err?))
  {
    StepEffect(w, fault, want);
    var (w1, r) := ReconcileRoute(w, fault, want);
    forall i | 0 <= i < |rest| && CachedDesired(w1, rest[i]) ensures Desired(w1.server, rest[i]) {
      assert CachedDesired(w, rest[i]) && Desired(w.server, rest[i]);
    }
  }

  /** `s1` is `s` with exactly the first `n` rules settled. */
  ghost predicate PartDone(s: Server, wants: seq<HTTPRoute>, n: nat, s1: Server) {
    WellKept(s) && n <= |wants| && s1 == Settle(s, wants[..n])
  }

  lemma RestDone(s: Server, wants: seq<HTTPRoute>, n: nat, s1: Server)
    requires WellKept(s) && wants != []
    ensures PartDone(SettleOne(s, wants[0]), wants[1..], n, s1) ==> PartDone(s, wants, n + 1, s1)
  {
    if n <= |wants[1..]| {
      assert wants[..n + 1][1..] == wants[1..][..n];
    }
  }

  /** How far a run got: to the end, or to the rule behind its marks, whether that was done or not. */
  ghost predicate Stopped(s: Server, wants: seq<HTTPRoute>, out: Outcome) {
    var n := |out.marks|;
    && (out.err.None? ==> n == |wants| && PartDone(s, wants, n, out.world.server))
    && (out.err.Some? ==>
          && n < |wants|
          && (PartDone(s, wants, n, out.world.server) || PartDone(s, wants, n + 1, out.world.server)))
  }

  lemma RestStopped(s: Server, wants: seq<HTTPRoute>, rest: Outcome, mark: Mark)
    requires WellKept(s) && wants != [] && Stopped(SettleOne(s, wants[0]), wants[1..], rest)
    ensures Stopped(s, wants, rest.(marks := [mark] + rest.marks))
  {
    RestDone(s, wants, |rest.marks|, rest.world.server);
    RestDone(s, wants, |rest.marks| + 1, rest.world.server);
  }

  /** With distinct names a pass over one frozen cache that tells no lie, stale as it may be otherwise,
      does to the server what reading the live server before every rule would have done, up to the rule
      it fails at, and possibly that one too (when only its answer was lost). */
  lemma {:induction false} FrozenIsLive(w: World, fault: nat -> Option<Fault>, wants: seq<HTTPRoute>)
    requires Sound(w) && Proper(wants) && Distinct(wants) && NoFalseFresh(w, wants)
    ensures Stopped(w.server, wants, RunWants(w, fault, wants))
    decreases |wants|
  {
    if wants == [] {
      assert PartDone(w.server, wants, 0, w.server);
    } else {
      var rest := wants[1..];
      assert forall i :: 0 <= i < |rest| ==> rest[i] == wants[i + 1];
      StepSettles(w, fault, wants[0], rest);
      StepEffect(w, fault, wants[0]);
      var (w1, r) := ReconcileRoute(w, fault, wants[0]);
      if r.Ok? {
        FrozenIsLive(w1, fault, rest);
        RestStopped(w.server, wants, RunWants(w1, fault, rest), RuleMark(RouteReady(r.value)));
      } else {
        FirstFailed(w.server, wants, w1.server);
      }
    }
  }

  /** A cache that has caught up tells no lie, and without faults nothing fails over it. */
  lemma {:induction false} CaughtUpNeverFails(w: World, fault: nat -> Option<Fault>, wants: seq<HTTPRoute>)
    requires Sound(w) && Proper(wants) && Distinct(wants) && CaughtUp(w, wants)
    ensures NoFalseFresh(w, wants)
    ensures Faultless(fault) ==> RunWants(w, fault, wants).err.None?
    decreases |wants|
  {
    forall i | 0 <= i < |wants| && CachedDesired(w, wants[i]) ensures Desired(w.server, wants[i]) {
      assert CaughtUpOn(w, wants[i]);
    }
    if wants != [] && Faultless(fault) {
      var rest := wants[1..];
      assert forall i :: 0 <= i < |rest| ==> rest[i] == wants[i + 1];
      assert CaughtUpOn(w, wants[0]);
      StepEffect(w, fault, wants[0]);
      var (w1, r) := ReconcileRoute(w, fault, wants[0]);
      forall i | 0 <= i < |rest| ensures CaughtUpOn(w1, rest[i]) {
        assert CaughtUpOn(w, wants[i + 1]);
      }
      CaughtUpNeverFails(w1, fault, rest);
    }
  }

  lemma FirstFailed(s: Server, wants: seq<HTTPRoute>, s1: Server)
    requires WellKept(s) && wants != [] && s1 in {s, SettleOne(s, wants[0])}
    ensures PartDone(s, wants, 0, s1) || PartDone(s, wants, 1, s1)
  {
    var one := SettleOne(s, wants[0]);
    assert Settle(one, []) == one;
    assert wants[..1][1..] == [] && wants[..1][0] == wants[0];
  }

  lemma {:induction false} SettleAppend(s: Server, a: seq<HTTPRoute>, b: seq<HTTPRoute>)
    requires WellKept(s)
    ensures Settle(s, a + b) == Settle(Settle(s, a), b)
    decreases |a|
  {
    if a == [] {
      assert a + b == b;
    } else {
      SettleAppend(SettleOne(s, a[0]), a[1..], b);
      assert (a + b)[1..] == a[1..] + b;
    }
  }

  lemma {:induction false} SettleKeeps(s: Server, wants: seq<HTTPRoute>, x: HTTPRoute)
    requires WellKept(s) && Desired(s, x) && forall i :: 0 <= i < |wants| ==> KeyOf(wants[i]) != KeyOf(x)
    ensures Desired(Settle(s, wants), x)
    decreases |wants|
  {
    if wants != [] { SettleKeeps(SettleOne(s, wants[0]), wants[1..], x); }
  }

  lemma {:induction false} SettleAchieves(s: Server, wants: seq<HTTPRoute>)
    requires WellKept(s) && Distinct(wants)
    ensures AllDesired(Settle(s, wants), wants)
    decreases |wants|
  {
    if wants != [] {
      var s1, rest := SettleOne(s, wants[0]), wants[1..];
      assert forall i :: 0 <= i < |rest| ==> rest[i] == wants[i + 1];
      assert Desired(s1, wants[0]);
      SettleKeeps(s1, rest, wants[0]);
      SettleAchieves(s1, rest);
    }
  }

  lemma {:induction false} SettleIdles(s: Server, wants: seq<HTTPRoute>)
    requires WellKept(s) && AllDesired(s, wants)
    ensures Settle(s, wants) == s
    decreases |wants|
  {
    if wants != [] {
      assert forall i :: 0 <= i < |wants[1..]| ==> wants[1..][i] == wants[i + 1];
      assert Desired(s, wants[0]);
      SettleIdles(s, wants[1..]);
    }
  }

  ghost predicate SameAt(a: Server, b: Server, k: Key) {
    (k in a.routes <==> k in b.routes) && (k in a.routes ==> a.routes[k] == b.routes[k])
  }

  /** What a pass leaves under the name of its `i`-th rule: for a rule it completed the desired route,
      unless the cache showed one; for a rule behind the failing one what was there before; and for the
      failing rule itself what was there, unless just the answer to its write was lost. */
  ghost predicate Left(w: World, wants: seq<HTTPRoute>, out: Outcome, i: nat)
    requires i < |wants|
  {
    var n, s1 := |out.marks|, out.world.server;
    if i < n then (if CachedDesired(w, wants[i]) then SameAt(w.server, s1, KeyOf(wants[i])) else Desired(s1, wants[i]))
    else
      || SameAt(w.server, s1, KeyOf(wants[i]))
      || (i == n && Desired(s1, wants[i]) && out.err.Some? && out.err.value.Unavailable?)
  }

  /** How far a pass gets, whatever its cache is like and whatever fails: it marks the rules it completes. */
  lemma {:induction false} ExtentOfRun(w: World, fault: nat -> Option<Fault>, wants: seq<HTTPRoute>)
    requires Sound(w) && Proper(wants) && Distinct(wants)
    ensures var out := RunWants(w, fault, wants);
            && |out.marks| <= |wants| && (out.err.None? <==> |out.marks| == |wants|)
            && forall i :: 0 <= i < |wants| ==> Left(w, wants, out, i)
    decreases |wants|
  {
    if wants != [] {
      StepEffect(w, fault, wants[0]);
      var (w1, r) := ReconcileRoute(w, fault, wants[0]);
      if r.Ok? {
        var rest := wants[1..];
        assert forall i :: 0 <= i < |rest| ==> rest[i] == wants[i + 1];
        ExtentOfRun(w1, fault, rest);
        RunFrame(w1, fault, rest);
        forall i | 0 <= i < |wants| ensures Left(w, wants, RunWants(w, fault, wants), i) {
          if i > 0 {
            assert Left(w1, rest, RunWants(w1, fault, rest), i - 1);
            assert KeyOf(wants[i]) != KeyOf(wants[0]);
          }
        }
      }
    }
  }

  /** A pass that fails at rule `k` (the number of its marks), be it for a fault on the way or for a
      refusal that a stale cache brought about: the rules before it are desired, except those for which
      the cache told a lie; the ones behind it are untouched; rule `k` itself is untouched too, unless
      just the answer to its write was lost. */
  lemma FailureLeavesPrefix(w: World, fault: nat -> Option<Fault>, wants: seq<HTTPRoute>)
    requires Sound(w) && Proper(wants) && Distinct(wants) && RunWants(w, fault, wants).err.Some?
    ensures var out := RunWants(w, fault, wants);
            var k, s1 := |out.marks|, out.world.server;
            && k < |wants|
            && (forall i :: 0 <= i < k ==>
                  (Desired(s1, wants[i]) <==> (CachedDesired(w, wants[i]) ==> Desired(w.server, wants[i]))))
            && (SameAt(w.server, s1, KeyOf(wants[k])) || (Desired(s1, wants[k]) && out.err.value.Unavailable?))
            && (forall i :: k < i < |wants| ==> SameAt(w.server, s1, KeyOf(wants[i])))
            && (NoFalseFresh(w, wants) ==> AllDesired(s1, wants[..k]))
  {
    ExtentOfRun(w, fault, wants);
    var out := RunWants(w, fault, wants);
    forall i | 0 <= i < |out.marks|
      ensures Desired(out.world.server, wants[i]) <==> (CachedDesired(w, wants[i]) ==> Desired(w.server, wants[i]))
    {
      assert Left(w, wants, out, i);
    }
    assert Left(w, wants, out, |out.marks|);
    forall i | |out.marks| < i < |wants| ensures SameAt(w.server, out.world.server, KeyOf(wants[i])) {
      assert Left(w, wants, out, i);
    }
  }

  // ---------- The routes a pass judges ----------

  function RouteAt(s: Server, k: Key): Option<HTTPRoute> {
    if k in s.routes then Some(s.routes[k]) else None
  }

  /** The route whose status a rule is judged by: the cached one if that shows the desired content, and
      otherwise the one that the server `s` holds in the end. */
  ghost function Judged(w: World, s: Server, want: HTTPRoute): Option<HTTPRoute> {
    if CachedDesired(w, want) then Cached(w, want) else RouteAt(s, KeyOf(want))
  }

  /** What a pass has written its cache no longer shows. */
  lemma WriteOutdates(w: World, fault: nat -> Option<Fault>, want: HTTPRoute)
    requires Sound(w) && NamespaceOk(want.namespace) && ReconcileRoute(w, fault, want).0.server != w.server
    ensures var w1 := ReconcileRoute(w, fault, want).0;
            RouteAt(w1.server, KeyOf(want)).Some? && Cached(w1, want) != RouteAt(w1.server, KeyOf(want))
  {
    StepEffect(w, fault, want);
    WriteIsOwn(w, want);
    CallEffect(w, fault, Decide(Cached(w, want), want).value);
    ListerIsKeyed(w.indexer, want.namespace, want.name);
    if Cached(w, want).Some? { assert Lagging(w.server, Cached(w, want).value); }
  }

  /** A route the cache does not show as it is stored is not written by what is left of the pass. */
  lemma {:induction false} OutdatedStays(w: World, fault: nat -> Option<Fault>, wants: seq<HTTPRoute>, x: HTTPRoute)
    requires Sound(w) && Proper(wants)
    requires RouteAt(w.server, KeyOf(x)).Some? && Cached(w, x) != RouteAt(w.server, KeyOf(x))
    ensures SameAt(w.server, RunWants(w, fault, wants).world.server, KeyOf(x))
    decreases |wants|
  {
    if wants != [] {
      StepEffect(w, fault, wants[0]);
      var (w1, r) := ReconcileRoute(w, fault, wants[0]);
      assert SameAt(w.server, w1.server, KeyOf(x));
      if r.Ok? { OutdatedStays(w1, fault, wants[1..], x); }
    }
  }

  /** The route a completed step answers with is the one its rule is judged by at the end of the pass. */
  lemma StepJudges(w: World, fault: nat -> Option<Fault>, want: HTTPRoute, rest: seq<HTTPRoute>)
    requires Sound(w) && NamespaceOk(want.namespace) && Proper(rest) && ReconcileRoute(w, fault, want).1.Ok?
    ensures var (w1, r) := ReconcileRoute(w, fault, want);
            Judged(w, RunWants(w1, fault, rest).world.server, want) == Some(r.value)
  {
    StepEffect(w, fault, want);
    if !CachedDesired(w, want) {
      WriteOutdates(w, fault, want);
      OutdatedStays(ReconcileRoute(w, fault, want).0, fault, rest, want);
    }
  }

  /** The marks of any pass, one for each rule it completed, tell the readiness of the routes the rules
      are judged by. */
  lemma {:induction false} MarksJudge(w: World, fault: nat -> Option<Fault>, wants: seq<HTTPRoute>)
    requires Sound(w) && Proper(wants)
    ensures var out := RunWants(w, fault, wants);
            && |out.marks| <= |wants| && (out.err.None? <==> |out.marks| == |wants|)
            && forall i :: 0 <= i < |out.marks| ==>
                 var route := Judged(w, out.world.server, wants[i]);
                 route.Some? && out.marks[i] == RuleMark(RouteReady(route.value))
    decreases |wants|
  {
    if wants != [] {
      StepEffect(w, fault, wants[0]);
      var (w1, r) := ReconcileRoute(w, fault, wants[0]);
      if r.Ok? {
        var rest := wants[1..];
        assert forall i :: 0 <= i < |rest| ==> rest[i] == wants[i + 1];
        StepJudges(w, fault, wants[0], rest);
        MarksJudge(w1, fault, rest);
        var out := RunWants(w, fault, wants);
        forall i | 0 <= i < |out.marks|
          ensures Judged(w, out.world.server, wants[i]).Some?
          ensures out.marks[i] == RuleMark(RouteReady(Judged(w, out.world.server, wants[i]).value))
        {
          if i > 0 { assert Judged(w, out.world.server, wants[i]) == Judged(w1, out.world.server, rest[i - 1]); }
        }
      }
    }
  }

  /** A rule that a pass completes although its name is not in the cache has had its route created, as
      wanted but for the version; and it is still so in the end. */
  lemma {:induction false} CreatedAsWanted(w: World, fault: nat -> Option<Fault>, wants: seq<HTTPRoute>, i: nat)
    requires Sound(w) && Proper(wants) && i < |RunWants(w, fault, wants).marks| <= |wants|
    requires Cached(w, wants[i]).None?
    ensures var s1, k := RunWants(w, fault, wants).world.server, KeyOf(wants[i]);
            && k !in w.server.routes && k in s1.routes && s1.routes[k] == wants[i].(version := s1.routes[k].version)
    decreases |wants|
  {
    StepEffect(w, fault, wants[0]);
    var (w1, r) := ReconcileRoute(w, fault, wants[0]);
    var rest := wants[1..];
    if i == 0 {
      StepFields(w, fault, wants[0]);
      WriteOutdates(w, fault, wants[0]);
      OutdatedStays(w1, fault, rest, wants[0]);
      CallEffect(w, fault, CreateRoute(wants[0]));
    } else {
      assert rest[i - 1] == wants[i];
      CreatedAsWanted(w1, fault, rest, i - 1);
    }
  }

  /** With distinct names the same of a completed rule whose route was not stored before. */
  lemma {:induction false} AddedAsWanted(w: World, fault: nat -> Option<Fault>, wants: seq<HTTPRoute>, i: nat)
    requires Sound(w) && Proper(wants) && Distinct(wants) && i < |RunWants(w, fault, wants).marks| <= |wants|
    requires KeyOf(wants[i]) !in w.server.routes && !CachedDesired(w, wants[i])
    ensures var s1, k := RunWants(w, fault, wants).world.server, KeyOf(wants[i]);
            k in s1.routes && s1.routes[k] == wants[i].(version := s1.routes[k].version)
    decreases |wants|
  {
    StepEffect(w, fault, wants[0]);
    var (w1, r) := ReconcileRoute(w, fault, wants[0]);
    var rest := wants[1..];
    assert forall j :: 0 <= j < |rest| ==> rest[j] == wants[j + 1];
    if i == 0 {
      StepFields(w, fault, wants[0]);
      RunFrame(w1, fault, rest);
    } else {
      AddedAsWanted(w1, fault, rest, i - 1);
    }
  }

  /** A pass, failing or not, leaves the owners and the status of every route it finds. */
  lemma {:induction false} PassKeeps(w: World, fault: nat -> Option<Fault>, wants: seq<HTTPRoute>, k: Key)
    requires Sound(w) && Proper(wants) && k in w.server.routes
    ensures var s1 := RunWants(w, fault, wants).world.server;
            && k in s1.routes && s1.routes[k].owners == w.server.routes[k].owners
            && s1.routes[k].gateways == w.server.routes[k].gateways
    decreases |wants|
  {
    if wants != [] {
      StepEffect(w, fault, wants[0]);
      var (w1, r) := ReconcileRoute(w, fault, wants[0]);
      if w1.server != w.server { StepFields(w, fault, wants[0]); }
      if r.Ok? { PassKeeps(w1, fault, wants[1..], k); }
    }
  }

  /** With distinct names and a cache that caught up, a completed rule is judged by its stored route. */
  lemma CaughtUpJudgesStored(w: World, fault: nat -> Option<Fault>, wants: seq<HTTPRoute>, i: nat)
    requires Sound(w) && Proper(wants) && Distinct(wants) && CaughtUp(w, wants)
    requires i < |RunWants(w, fault, wants).marks| <= |wants|
    ensures var s := RunWants(w, fault, wants).world.server;
            Judged(w, s, wants[i]) == RouteAt(s, KeyOf(wants[i]))
  {
    ExtentOfRun(w, fault, wants);
    assert Left(w, wants, RunWants(w, fault, wants), i) && CaughtUpOn(w, wants[i]);
  }

  /** Settling again, from any point at which settling stopped, ends in the same server. */
  lemma {:induction false} SettleResumes(s: Server, wants: seq<HTTPRoute>, n: nat)
    requires WellKept(s) && n <= |wants| && Distinct(wants)
    ensures Settle(Settle(s, wants[..n]), wants) == Settle(s, wants)
  {
    var a, b := wants[..n], wants[n..];
    assert wants == a + b;
    SettleAchieves(s, a);
    SettleIdles(Settle(s, a), a);
    SettleAppend(Settle(s, a), a, b);
    SettleAppend(s, a, b);
  }

  lemma {:induction false} StoppedResumes(s: Server, wants: seq<HTTPRoute>, out: Outcome)
    requires Stopped(s, wants, out) && Distinct(wants) && WellKept(s) && WellKept(out.world.server)
    ensures Settle(out.world.server, wants) == Settle(s, wants)
  {
    SettleResumes(s, wants, |out.marks|);
    if |out.marks| < |wants| { SettleResumes(s, wants, |out.marks| + 1); }
  }

  /** Without faults and over a cache that caught up a pass settles every rule. */
  lemma CalmRunSettles(w: World, calm: nat -> Option<Fault>, wants: seq<HTTPRoute>)
    requires Sound(w) && Proper(wants) && Distinct(wants) && CaughtUp(w, wants) && Faultless(calm)
    ensures var out := RunWants(w, calm, wants);
            out.err.None? && out.world.server == Settle(w.server, wants) && AllDesired(out.world.server, wants)
  {
    CaughtUpNeverFails(w, calm, wants);
    FrozenIsLive(w, calm, wants);
    assert wants[..|wants|] == wants;
    SettleAchieves(w.server, wants);
  }

  /** How a cache comes to tell the lie of `FalselyFreshHides`. An Ingress whose routes are desired and
      cached is edited, from `a` to `b`, and the pass for `b` succeeds; it is edited back before the watch
      events of those writes are seen. The pass for `a` then ends without an error, without a write and
      without a call, and leaves every edited rule as it was edited. */
  lemma {:induction false} EditLeavesLie(
      w: World, fault: nat -> Option<Fault>, a: seq<HTTPRoute>, b: seq<HTTPRoute>, later: nat -> Option<Fault>)
    requires Sound(w) && Proper(a) && Distinct(a) && CaughtUp(w, a) && AllDesired(w.server, a) && Faultless(fault)
    requires |b| == |a| && forall i :: 0 <= i < |a| ==> KeyOf(b[i]) == KeyOf(a[i])
    ensures var out := RunWants(w, fault, b);
            var back := RunWants(out.world, later, a);
            && out.err.None? && Sound(out.world) && AllDesired(out.world.server, b)
            && back.err.None? && back.world == out.world
            && (forall i :: 0 <= i < |a| ==> CachedDesired(out.world, a[i]))
            && (forall i :: 0 <= i < |a| ==> (Desired(back.world.server, a[i]) <==> SameContent(a[i], b[i])))
  {
    forall i | 0 <= i < |b| ensures CaughtUpOn(w, b[i]) && NamespaceOk(b[i].namespace) {
      assert CaughtUpOn(w, a[i]) && NamespaceOk(a[i].namespace);
    }
    CalmRunSettles(w, fault, b);
    RunFrame(w, fault, b);
    var w1 := RunWants(w, fault, b).world;
    forall i | 0 <= i < |a|
      ensures CachedDesired(w1, a[i]) && (Desired(w1.server, a[i]) <==> SameContent(a[i], b[i]))
    {
      assert CaughtUpOn(w, a[i]) && Desired(w.server, a[i]) && Desired(w1.server, b[i]);
    }
    QuietExactly(w1, later, a);
  }

  /** Retry: whatever made a pass fail, wherever, and whatever its cache was like, a later pass without
      faults over a cache that caught up completes and leaves every rule's route desired. If the first
      cache told no lie it leaves the server, versions included, that settling the rules on the first
      server leaves; and if that cache had caught up, the one an uninterrupted pass would have left. */
  lemma {:induction false} RetryReachesTheSame(
      w: World, fault: nat -> Option<Fault>, wants: seq<HTTPRoute>, w2: World, calm: nat -> Option<Fault>)
    requires Sound(w) && Proper(wants) && Distinct(wants) && Faultless(calm)
    requires Resynced(w2, RunWants(w, fault, wants).world.server, wants)
    ensures var out2 := RunWants(w2, calm, wants);
            && out2.err.None? && AllDesired(out2.world.server, wants)
            && (NoFalseFresh(w, wants) ==> out2.world.server == Settle(w.server, wants))
            && (CaughtUp(w, wants) ==> out2.world.server == RunWants(w, calm, wants).world.server)
  {
    CalmRunSettles(w2, calm, wants);
    RunFrame(w, fault, wants);
    if NoFalseFresh(w, wants) {
      FrozenIsLive(w, fault, wants);
      StoppedResumes(w.server, wants, RunWants(w, fault, wants));
    }
    if CaughtUp(w, wants) {
      CaughtUpNeverFails(w, calm, wants);
      CalmRunSettles(w, calm, wants);
    }
  }
}

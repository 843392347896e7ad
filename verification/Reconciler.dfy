/** The reconciler as it runs: objects in the informer's cache, an Ingress it changes in place, and
    calls to the API server. Every method is tied to the pass as a function of values. */
module Reconciler {

  import opened Wrappers
  import opened GoStrings
  import opened IngressApi
  import opened GatewayApi
  import opened GatewayConfig
  import opened Resources
  import opened Routing
  import opened Status
  import opened Protocol
  import opened Convergence
  import opened Ingresses
  import Passes

  /** A route in the informer's cache. */
  class RouteObject {
    const name: string
    const namespace: string
    const owners: seq<OwnerReference>
    var labels: map<string, string>
    var annotations: map<string, string>
    var spec: HTTPRouteSpec
    var gateways: Option<seq<RouteGatewayStatus>>
    var version: nat

    function Value(): HTTPRoute
      reads this
    {
      HTTPRoute(name, namespace, labels, annotations, owners, spec, gateways, version)
    }

    constructor (r: HTTPRoute)
      ensures Value() == r
    {
      name, namespace, owners := r.name, r.namespace, r.owners;
      labels, annotations, spec, gateways, version := r.labels, r.annotations, r.spec, r.gateways, r.version;
    }

    method DeepCopy() returns (c: RouteObject)
      ensures fresh(c) && c.Value() == Value()
    {
      c := new RouteObject(Value());
    }
  }

  class Reconciler {
    const env: Env
    var indexer: map<string, RouteObject>
    var server: Server
    var calls: nat
    var writes: seq<Key>

    constructor (env: Env, indexer: map<string, RouteObject>, server: Server)
      ensures this.env == env && this.indexer == indexer && this.server == server && calls == 0 && writes == []
    {
      this.env, this.indexer, this.server := env, indexer, server;
      calls, writes := 0, [];
    }

    ghost function Index(): map<string, HTTPRoute>
      reads this`indexer, indexer.Values
    {
      map k | k in indexer :: indexer[k].Value()
    }

    /** What the cache holds depends on the objects in it and nothing else. */
    twostate lemma IndexKept()
      requires unchanged(this`indexer)
      requires forall o :: o in old(indexer.Values) ==> unchanged(o)
      ensures Index() == old(Index())
    {
    }

    ghost function View(): World
      reads this, indexer.Values
    {
      World(server, Index(), calls, writes)
    }

    /** A request to the API server. */
    method Send(wr: Write) returns (r: Result<HTTPRoute, Error>)
      modifies this`server, this`calls, this`writes
      ensures (View(), r) == Call(old(View()), env.fault, wr)
    {
      var f := env.fault(calls);
      calls := calls + 1;
      IndexKept();
      if f.Some? && f.value.CallLost? { return Err(Unavailable(f.value.message)); }
      var refusal := Refusal(server, wr);
      if refusal.Some? { return Err(refusal.value); }
      server, writes := Store(server, wr.route), writes + [KeyOf(wr.route)];
      IndexKept();
      if f.Some? { return Err(Unavailable(f.value.message)); }
      r := Ok(server.routes[KeyOf(wr.route)]);
    }

    /** The update made of a cached route, on a copy: the informer's object is not touched. */
    method Updated(httproute: RouteObject, desired: HTTPRoute) returns (wr: Option<Write>)
      ensures wr == Decide(Some(httproute.Value()), desired)
    {
      wr := None;
      if httproute.spec != desired.spec
         || httproute.annotations != desired.annotations
         || httproute.labels != desired.labels {
        var origin := httproute.DeepCopy();
        origin.spec := desired.spec;
        origin.annotations := desired.annotations;
        origin.labels := desired.labels;
        wr := Some(UpdateRoute(origin.Value()));
      }
    }

    /** Creates, updates or leaves alone, given what the lister answered. */
    method CreateOrUpdate(cached: RouteObject?, desired: HTTPRoute) returns (r: Result<HTTPRoute, Error>)
      requires Cached(View(), desired) == if cached == null then None else Some(cached.Value())
      modifies this`server, this`calls, this`writes
      ensures (View(), r) == ReconcileRoute(old(View()), env.fault, desired)
    {
      if cached == null {
        r := Send(CreateRoute(desired));
      } else {
        var wr := Updated(cached, desired);
        if wr.Some? {
          r := Send(wr.value);
        } else {
          r := Ok(cached.Value());
        }
      }
    }

    /** `reconcileHTTPRoute`. Nothing in the cache is written: only the server, the counters and the
        order of the rule's hosts change. */
    method ReconcileHTTPRoute(meta: ObjectMeta, rule: IngressRule) returns (r: Result<HTTPRoute, Error>)
      requires rule.hosts.Length > 0
      modifies this`server, this`calls, this`writes, rule.hosts
      ensures (View(), r) == ReconcileRoute(old(View()), env.fault, MakeRoute(env.cfg, meta, old(rule.Value())))
      ensures rule.hosts[..] == SortHosts(old(rule.hosts[..]))
    {
      var cached, desired := Lookup(meta, rule);
      r := CreateOrUpdate(cached, desired);
    }

    /** What the lister has under the rule's name, and what the rule wants there. */
    method Lookup(meta: ObjectMeta, rule: IngressRule) returns (cached: RouteObject?, desired: HTTPRoute)
      requires rule.hosts.Length > 0
      modifies rule.hosts
      ensures View() == old(View()) && desired == MakeRoute(env.cfg, meta, old(rule.Value()))
      ensures Cached(View(), desired) == if cached == null then None else Some(cached.Value())
      ensures rule.hosts[..] == SortHosts(old(rule.hosts[..]))
    {
      Apart(indexer.Values, rule.hosts);
      CanonicalAfterSorting(env.cfg, meta, rule.Value());
      var name := LongestHost(rule.hosts);
      var key := meta.namespace + "/" + name;
      cached := if key in indexer then indexer[key] else null;
      desired := MakeHTTPRoute(env.cfg, meta, rule);
      IndexKept();
    }

    /** The rule loop. `rule` is a copy, but its host list is the Ingress's own: the lists of the rules
        it gets to end up sorted, the others keep their order. */
    method RunRules(ing: Ingress, ghost values: seq<RuleValue>, ghost wants: seq<HTTPRoute>)
      returns (err: Option<Error>, ghost done: nat)
      requires ing.Valid() && HoldsRules(ing, values, 0) && Translated(env.cfg, ing.meta, values, wants)
      modifies this`server, this`calls, this`writes, ing`status, ing.HostLists()
      ensures Ended(old(ing.status), RunWants(old(View()), env.fault, wants), View(), ing.status, err)
      ensures indexer == old(indexer)
      ensures done <= |ing.rules| && (err.None? ==> done == |ing.rules|)
      ensures HoldsRules(ing, values, done) && SortedRules(ing, values, done)
    {
      ghost var whole, start := RunWants(View(), env.fault, wants), ing.status;
      ghost var marks: seq<Mark> := [];
      err, done := None, 0;
      for n := 0 to |ing.rules|
        invariant done == n && err.None? && indexer == old(indexer)
        invariant HoldsRules(ing, values, n) && SortedRules(ing, values, n)
        invariant Midway(whole, start, marks, View(), env.fault, wants[n..], ing.status)
      {
        ghost var w, status, r := View(), ing.status, Err(NotFound);
        err, r := Turn(ing, n, values, wants);
        done := n + 1;
        TurnTaken(whole, start, marks, w, env.fault, wants, n, status);
        if err.Some? { return; }
        marks := marks + [RuleMark(RouteReady(r.value))];
      }
      AllTaken(whole, start, marks, View(), env.fault, wants, ing.status);
    }

    /** One turn: reconcile rule `n`, then mark it. */
    method Turn(ing: Ingress, n: nat, ghost values: seq<RuleValue>, ghost wants: seq<HTTPRoute>)
      returns (err: Option<Error>, ghost r: Result<HTTPRoute, Error>)
      requires ing.Valid() && n < |ing.rules| && HoldsRules(ing, values, n) && SortedRules(ing, values, n)
      requires Translated(env.cfg, ing.meta, values, wants)
      modifies this`server, this`calls, this`writes, ing`status, ing.HostLists()
      ensures (View(), r) == ReconcileRoute(old(View()), env.fault, wants[n])
      ensures err == (if r.Err? then Some(r.error) else None)
      ensures ing.status == if r.Err? then old(ing.status) else Apply(old(ing.status), RuleMark(RouteReady(r.value)))
      ensures HoldsRules(ing, values, n + 1) && SortedRules(ing, values, n + 1)
    {
      var httproute := ReconcileOne(ing, n, values, wants);
      r := httproute;
      if httproute.Err? { return Some(httproute.error), r; }
      MarkRule(ing, httproute.value, values, n + 1);
      err := None;
    }

    /** The route of rule `n`: of all host lists only this rule's is sorted. */
    method ReconcileOne(ing: Ingress, n: nat, ghost values: seq<RuleValue>, ghost wants: seq<HTTPRoute>)
      returns (r: Result<HTTPRoute, Error>)
      requires ing.Valid() && n < |ing.rules| && HoldsRules(ing, values, n) && SortedRules(ing, values, n)
      requires Translated(env.cfg, ing.meta, values, wants)
      modifies this`server, this`calls, this`writes, ing.HostLists()
      ensures (View(), r) == ReconcileRoute(old(View()), env.fault, wants[n])
      ensures HoldsRules(ing, values, n + 1) && SortedRules(ing, values, n + 1)
    {
      var rule := ing.rules[n];
      assert rule.Value() == values[n];
      r := ReconcileHTTPRoute(ing.meta, rule);
      OneRuleSorted(ing, values, n);
    }

    /** The mark a rule gets from the status of the route it ended with. */
    method MarkRule(ing: Ingress, httproute: HTTPRoute, ghost values: seq<RuleValue>, ghost n: nat)
      requires HoldsRules(ing, values, n) && SortedRules(ing, values, n)
      modifies ing`status
      ensures HoldsRules(ing, values, n) && SortedRules(ing, values, n)
      ensures ing.status == Apply(old(ing.status), RuleMark(RouteReady(httproute)))
      ensures View() == old(View())
    {
      var ready := IsHTTPRouteReady(httproute);
      if ready {
        ing.status := Apply(ing.status, MarkNetworkConfigured);
      } else {
        ing.status := Apply(ing.status, NOT_READY);
      }
      IndexKept();
      RulesKept(ing, values, n);
    }

    /** `reconcileIngress`. The Ingress is defaulted and given its probe rules in place; the copy made
        between the two, which the prober is shown, keeps its value through the whole loop. */
    method ReconcileIngress(ing: Ingress) returns (err: Option<Error>)
      requires ing.Valid() && HostsGiven(ing.Value().rules)
      modifies this`server, this`calls, this`writes, ing`rules, ing`status, ing.HostLists(), ing.Blocks()
      ensures Ended(Started(old(ing.status)), Protocol.ReconcileIngress(old(View()), env, old(ing.Value())),
                    View(), ing.status, err)
      ensures indexer == old(indexer)
    {
      ghost var w0, ing0, start := View(), ing.Value(), Started(ing.status);
      var before, hash := Prepare(ing);
      if hash.Err? { return Some(HashFailed(hash.error)); }

      ghost var values := RulesWithProbe(Defaulted(ing0).rules, hash.value);
      ghost var wants := WantsTranslate(env.cfg, ing0, hash.value);
      ghost var done;
      label Looping:
      err, done := RunRules(ing, values, wants);
      PassUnfolds(w0, env, ing0, wants);
      if err.Some? { return; }
      before.ValueKept@Looping();

      var ready := env.probe(before.Value());
      if ready.Err? { return Some(ProbeFailed(ready.error)); }
      MarkProbe(ing, ready.value);
      ApplyAllAppend(start, RunWants(w0, env.fault, wants).marks, ProbeMark(env, ready.value));
    }

    /** What comes before the loop: default, copy, initialise the conditions, insert the probe rules. */
    method Prepare(ing: Ingress) returns (before: Ingress, hash: Result<string, string>)
      requires ing.Valid()
      modifies ing`rules, ing`status, ing.Blocks()
      ensures View() == old(View()) && ing.status == Started(old(ing.status)) && ing.Valid()
      ensures ing.HostLists() == old(ing.HostLists()) && ing.Blocks() == old(ing.Blocks())
      ensures fresh(before) && before.HostLists() !! ing.HostLists() && before.Blocks() !! ing.Blocks()
      ensures before.Value() == Defaulted(old(ing.Value())) && hash == env.hash(before.Value())
      ensures hash.Ok? ==> HoldsRules(ing, RulesWithProbe(Defaulted(old(ing.Value())).rules, hash.value), 0)
    {
      ing.SetDefaults();
      before := ing.DeepCopy();
      ing.status := Started(ing.status);
      label Copied:
      hash := ing.InsertProbe(env.hash);
      before.ValueKept@Copied();
      IndexKept();
      if hash.Ok? {
        HoldsItsValue(ing);
      }
    }

    method MarkProbe(ing: Ingress, ready: bool)
      modifies ing`status
      ensures ing.status == Apply(old(ing.status), ProbeMark(env, ready)) && View() == old(View())
    {
      ing.status := Apply(ing.status, ProbeMark(env, ready));
      IndexKept();
    }

    /** `ReconcileKind`: a failed pass leaves the Ingress marked not ready. In a sound world all of the
        status is told from the status before: `Passes.Reported` does it in full. In particular, the
        Ingress ends ready exactly when the pass completed, the probe answered yes, and the network is
        configured: a rule was judged by a ready route, or it was configured before, or it was not set
        while the Ingress was ready. The two domains are set just when the probe answers yes. */
    method ReconcileKind(ing: Ingress) returns (err: Option<Error>)
      requires ing.Valid() && HostsGiven(ing.Value().rules)
      modifies this`server, this`calls, this`writes, ing`rules, ing`status, ing.HostLists(), ing.Blocks()
      ensures Ended(Started(old(ing.status)), Protocol.ReconcileKind(old(View()), env, old(ing.Value())),
                    View(), ing.status, err)
      ensures indexer == old(indexer)
      ensures old(Sound(View()) && NamespaceOk(ing.meta.namespace)) ==>
                && Passes.Reported(old(View()), env, old(ing.Value()), old(ing.status), ing.status)
                && (ing.status.conditions.ready == Some(True) <==>
                      && err.None? && env.probe(Defaulted(old(ing.Value()))) == Ok(true)
                      && ((exists i :: 0 <= i < |old(ing.Value()).rules|
                                       && Passes.JudgedReady(old(View()), env, old(ing.Value()), i))
                          || old(ing.status).conditions.network == Some(True)
                          || (old(ing.status).conditions.network.None?
                              && old(ing.status).conditions.ready == Some(True))))
                && (ing.status.publicLb, ing.status.privateLb) ==
                     if err.None? && env.probe(Defaulted(old(ing.Value()))) == Ok(true) then
                       (Some(ServiceHostname(env, ExternalIP)), Some(ServiceHostname(env, ClusterLocal)))
                     else (old(ing.status).publicLb, old(ing.status).privateLb)
    {
      ghost var out := Protocol.ReconcileIngress(View(), env, ing.Value());
      err := ReconcileIngress(ing);
      if err.Some? {
        label Failed:
        ing.status := Apply(ing.status, FAILED);
        IndexKept@Failed();
        ApplyAllAppend(Started(old(ing.status)), out.marks, FAILED);
      }
      if old(Sound(View()) && NamespaceOk(ing.meta.namespace)) {
        EndsReported(old(View()), env, old(ing.Value()), old(ing.status), View(), ing.status, err);
      }
    }
  }

  /** From rule `n` on, the Ingress on the heap has these values. */
  ghost predicate HoldsRules(ing: Ingress, values: seq<RuleValue>, n: nat)
    reads ing`rules, ing.HostLists(), ing.Blocks()
  {
    |ing.rules| == |values| && forall i :: n <= i < |values| ==> ing.rules[i].Value() == values[i]
  }

  /** Before rule `n` it has them with the hosts sorted. */
  ghost predicate SortedRules(ing: Ingress, values: seq<RuleValue>, n: nat)
    reads ing`rules, ing.HostLists(), ing.Blocks()
  {
    |ing.rules| == |values| &&
    forall i :: 0 <= i < n && i < |values| ==> ing.rules[i].Value() == values[i].(hosts := SortHosts(values[i].hosts))
  }

  lemma HoldsItsValue(ing: Ingress)
    ensures HoldsRules(ing, ing.Value().rules, 0)
  {
  }

  lemma Apart(objects: set<RouteObject>, hosts: array<string>)
    ensures forall o :: o in objects ==> (o as object) != hosts
  {
  }

  /** Marks do not touch the rules. */
  twostate lemma RulesKept(ing: Ingress, new values: seq<RuleValue>, new n: nat)
    requires unchanged(ing`rules)
    requires forall a :: a in ing.HostLists() ==> unchanged(a)
    requires forall b :: b in ing.Blocks() ==> unchanged(b)
    ensures old(HoldsRules(ing, values, n)) ==> HoldsRules(ing, values, n)
    ensures old(SortedRules(ing, values, n)) ==> SortedRules(ing, values, n)
  {
    forall i | 0 <= i < |ing.rules| ensures ing.rules[i].Value() == old(ing.rules[i].Value()) {
      assert ing.rules[i].hosts in ing.HostLists() && ing.rules[i].http in ing.Blocks();
    }
  }

  /** Sorting the hosts of rule `n` moves the boundary between sorted and untouched rules by one. */
  twostate lemma OneRuleSorted(ing: Ingress, new values: seq<RuleValue>, new n: nat)
    requires unchanged(ing`rules) && ing.Valid() && n < |ing.rules|
    requires old(HoldsRules(ing, values, n)) && old(SortedRules(ing, values, n))
    requires ing.rules[n].hosts[..] == SortHosts(old(ing.rules[n].hosts[..]))
    requires forall i :: 0 <= i < |ing.rules| && i != n ==> unchanged(ing.rules[i].hosts)
    requires forall i :: 0 <= i < |ing.rules| ==> unchanged(ing.rules[i].http)
    ensures HoldsRules(ing, values, n + 1) && SortedRules(ing, values, n + 1)
  {
    forall i | 0 <= i < |values| && i != n ensures ing.rules[i].Value() == old(ing.rules[i].Value()) {
    }
  }

  /** `wants` are the routes the rules translate to. */
  ghost predicate Translated(cfg: Config, meta: ObjectMeta, values: seq<RuleValue>, wants: seq<HTTPRoute>) {
    |wants| == |values| &&
    forall i :: 0 <= i < |values| ==> values[i].hosts != [] && wants[i] == MakeRoute(cfg, meta, values[i])
  }

  lemma WantsTranslate(cfg: Config, ing: IngressValue, hash: string) returns (wants: seq<HTTPRoute>)
    requires HostsGiven(ing.rules)
    ensures wants == Wants(cfg, ing, hash)
    ensures Translated(cfg, ing.meta, RulesWithProbe(Defaulted(ing).rules, hash), wants)
  {
    wants := Wants(cfg, ing, hash);
    forall i | 0 <= i < |ing.rules| ensures ing.rules[i].hosts != [] { assert ing.rules[i] in ing.rules; }
  }

  lemma PassUnfolds(w: World, env: Env, ing: IngressValue, wants: seq<HTTPRoute>)
    requires HostsGiven(ing.rules) && env.hash(Defaulted(ing)).Ok?
    requires wants == Wants(env.cfg, ing, env.hash(Defaulted(ing)).value)
    ensures var out, pass := RunWants(w, env.fault, wants), Protocol.ReconcileIngress(w, env, ing);
            var ready := env.probe(Defaulted(ing));
            && (out.err.Some? ==> pass == out)
            && (out.err.None? && ready.Err? ==> pass == Outcome(out.world, out.marks, Some(ProbeFailed(ready.error))))
            && (out.err.None? && ready.Ok? ==>
                  pass == Outcome(out.world, out.marks + [ProbeMark(env, ready.value)], None))
  {
  }

  /** The world, the status (from `start`) and the error are those of the outcome. */
  ghost predicate Ended(start: IngressStatus, out: Outcome, w: World, status: IngressStatus, err: Option<Error>) {
    w == out.world && err == out.err && status == ApplyAll(start, out.marks)
  }

  lemma EndsReported(w: World, env: Env, ing: IngressValue, was: IngressStatus,
                     w1: World, now: IngressStatus, err: Option<Error>)
    requires HostsGiven(ing.rules) && NamespaceOk(ing.meta.namespace) && Sound(w)
    requires Ended(Started(was), Protocol.ReconcileKind(w, env, ing), w1, now, err)
    ensures Passes.Reported(w, env, ing, was, now)
    ensures now.conditions.ready == Some(True) <==>
              && err.None? && env.probe(Defaulted(ing)) == Ok(true)
              && ((exists i :: 0 <= i < |ing.rules| && Passes.JudgedReady(w, env, ing, i))
                  || was.conditions.network == Some(True)
                  || (was.conditions.network.None? && was.conditions.ready == Some(True)))
    ensures (now.publicLb, now.privateLb) ==
              if err.None? && env.probe(Defaulted(ing)) == Ok(true) then
                (Some(ServiceHostname(env, ExternalIP)), Some(ServiceHostname(env, ClusterLocal)))
              else (was.publicLb, was.privateLb)
  {
    Passes.ReportedByPass(w, env, ing, was);
    var readies := Passes.TraceOfPass(w, env, ing);
  }

  /** In the middle of a run that amounts to `whole`: it has made `marks` so far, which led from
      `start` to `status`, and goes on from `w` with `rest`. */
  ghost predicate Midway(whole: Outcome, start: IngressStatus, marks: seq<Mark>,
                         w: World, fault: nat -> Option<Fault>, rest: seq<HTTPRoute>, status: IngressStatus) {
    && whole == RunWants(w, fault, rest).(marks := marks + RunWants(w, fault, rest).marks)
    && status == ApplyAll(start, marks)
  }

  lemma AllTaken(whole: Outcome, start: IngressStatus, marks: seq<Mark>,
                 w: World, fault: nat -> Option<Fault>, wants: seq<HTTPRoute>, status: IngressStatus)
    requires Midway(whole, start, marks, w, fault, wants[|wants|..], status)
    ensures Ended(start, whole, w, status, None)
  {
    assert wants[|wants|..] == [] && marks + [] == marks;
  }

  lemma TurnTaken(whole: Outcome, start: IngressStatus, marks: seq<Mark>,
                  w: World, fault: nat -> Option<Fault>, wants: seq<HTTPRoute>, n: nat, status: IngressStatus)
    requires n < |wants| && Midway(whole, start, marks, w, fault, wants[n..], status)
    ensures var (w1, r) := ReconcileRoute(w, fault, wants[n]);
            && (r.Err? ==> Ended(start, whole, w1, status, Some(r.error)))
            && (r.Ok? ==> var mark := RuleMark(RouteReady(r.value));
                          Midway(whole, start, marks + [mark], w1, fault, wants[n + 1..], Apply(status, mark)))
  {
    assert wants[n..][0] == wants[n] && wants[n..][1..] == wants[n + 1..];
    var (w1, r) := ReconcileRoute(w, fault, wants[n]);
    if r.Ok? {
      var mark, rest := RuleMark(RouteReady(r.value)), RunWants(w1, fault, wants[n + 1..]);
      assert marks + ([mark] + rest.marks) == marks + [mark] + rest.marks;
      ApplyAllAppend(start, marks, mark);
    } else {
      assert marks + [] == marks;
    }
  }

  /** `Status.InitializeConditions`. */
  function Started(s: IngressStatus): IngressStatus {
    s.(conditions := s.conditions.Initialize())
  }

  lemma CanonicalAfterSorting(cfg: Config, meta: ObjectMeta, rule: RuleValue)
    requires rule.hosts != []
    ensures var sorted := rule.(hosts := SortHosts(rule.hosts));
            sorted.hosts != [] && MakeRoute(cfg, meta, sorted) == MakeRoute(cfg, meta, rule)
            && SortHosts(sorted.hosts) == sorted.hosts
  {
    SortHostsSorts(rule.hosts);
    CanonicalRoute(cfg, meta, rule, SortHosts(rule.hosts));
    SortHostsCanonical(SortHosts(rule.hosts), rule.hosts);
  }
}

/** What a whole `ReconcileKind` does for an Ingress: the routing it publishes, and the status it
    reports. */
module Passes {

  import opened Wrappers
  import opened GoStrings
  import opened Matching
  import opened IngressApi
  import opened GatewayApi
  import opened GatewayConfig
  import opened Resources
  import opened Routing
  import opened Status
  import opened Protocol
  import opened Convergence

  /** Rules with disjoint hosts want routes of distinct names, in the Ingress's own namespace. */
  lemma DisjointHostsDistinctWants(cfg: Config, ing: IngressValue, hash: string)
    requires HostsGiven(ing.rules) && DisjointHosts(ing.rules) && NamespaceOk(ing.meta.namespace)
    ensures var wants := Wants(cfg, ing, hash);
            |wants| == |ing.rules| && Proper(wants) && Distinct(wants) && Compatible(wants)
  {
    var wants := Wants(cfg, ing, hash);
    forall i | 0 <= i < |wants|
      ensures wants[i].namespace == ing.meta.namespace && wants[i].name == LeastHost(ing.rules[i].hosts)
    {
    }
    forall i, j | 0 <= i < j < |wants| ensures KeyOf(wants[i]) != KeyOf(wants[j]) {
      assert ing.rules[i] in ing.rules && ing.rules[j] in ing.rules;
      DisjointHostsDistinctNames(ing.rules[i].hosts, ing.rules[j].hosts);
    }
  }

  // ---------- Rules that share a route name ----------

  lemma SamePathSameTwin(p: HTTPPath, q: HTTPPath, hash: string)
    requires RouteRule(p) == RouteRule(q)
    ensures RouteRule(ProbeTwin(p, hash)) == RouteRule(ProbeTwin(q, hash))
  {
    var a, b := ProbeTwin(p, hash), ProbeTwin(q, hash);
    assert Forwards(a) == Forwards(p) && Forwards(b) == Forwards(q);
    assert RouteRule(p).filters == RouteRule(q).filters && RouteRule(p).matches[0] == RouteRule(q).matches[0];
    assert AppendOf(p) == AppendOf(q);
    assert ExactValues(HeadersOf(p)) == ExactValues(HeadersOf(q));
    assert ExactValues(HeadersOf(a)) == ExactValues(HeadersOf(p))[HASH_HEADER := HASH_HEADER_VALUE];
    assert ExactValues(HeadersOf(b)) == ExactValues(HeadersOf(q))[HASH_HEADER := HASH_HEADER_VALUE];
  }

  /** The probe rules neither make route rules differ nor hide that they do. */
  lemma ProbedRouteRules(a: seq<HTTPPath>, b: seq<HTTPPath>, hash: string)
    ensures RouteRules(WithProbe(a, hash)) == RouteRules(WithProbe(b, hash)) <==> RouteRules(a) == RouteRules(b)
  {
    var pa, pb := RouteRules(WithProbe(a, hash)), RouteRules(WithProbe(b, hash));
    assert |pa| == 2 * |a| && |pb| == 2 * |b|;
    assert forall i :: 0 <= i < |a| ==> pa[|a| + i] == RouteRules(a)[i];
    assert forall i :: 0 <= i < |b| ==> pb[|b| + i] == RouteRules(b)[i];
    if RouteRules(a) == RouteRules(b) {
      forall i | 0 <= i < |a| ensures pa[i] == pb[i] {
        assert RouteRule(a[i]) == RouteRules(a)[i] == RouteRules(b)[i] == RouteRule(b[i]);
        SamePathSameTwin(a[i], b[i], hash);
      }
      forall i | 0 <= i < |pa| ensures pa[i] == pb[i] {
        if i >= |a| { assert pa[i] == RouteRules(a)[i - |a|] == pb[i]; }
      }
    }
    if pa == pb {
      forall i | 0 <= i < |a| ensures RouteRules(a)[i] == RouteRules(b)[i] {
        assert pa[|a| + i] == pb[|b| + i];
      }
      assert RouteRules(a) == RouteRules(b);
    }
  }

  /** Two rules are the same as far as their route goes. */
  ghost predicate SameRule(cfg: Config, a: RuleValue, b: RuleValue) {
    && multiset(a.hosts) == multiset(b.hosts)
    && (a.visibility == ClusterLocal <==> b.visibility == ClusterLocal)
    && GatewayRef(cfg, a.visibility) == GatewayRef(cfg, b.visibility)
    && RouteRules(a.paths) == RouteRules(b.paths)
  }

  lemma ContentOfRoute(cfg: Config, meta: ObjectMeta, a: RuleValue, b: RuleValue)
    requires a.hosts != [] && b.hosts != []
    ensures SameContent(MakeRoute(cfg, meta, a), MakeRoute(cfg, meta, b)) <==>
              && SortHosts(a.hosts) == SortHosts(b.hosts) && RouteRules(a.paths) == RouteRules(b.paths)
              && GatewayRef(cfg, a.visibility) == GatewayRef(cfg, b.visibility)
              && (a.visibility == ClusterLocal <==> b.visibility == ClusterLocal)
  {
    var x, y := MakeRoute(cfg, meta, a), MakeRoute(cfg, meta, b);
    assert x.labels[VISIBILITY_LABEL] == VisibilityLabel(a) && y.labels[VISIBILITY_LABEL] == VisibilityLabel(b);
    assert x.labels == y.labels <==> VisibilityLabel(a) == VisibilityLabel(b);
    assert |VisibilityLabel(a)| == |VisibilityLabel(b)| <==>
           (a.visibility == ClusterLocal <==> b.visibility == ClusterLocal);
  }

  lemma SameRuleSameWant(cfg: Config, meta: ObjectMeta, a: RuleValue, b: RuleValue, hash: string)
    requires a.hosts != [] && b.hosts != []
    ensures SameContent(MakeRoute(cfg, meta, RuleWithProbe(a, hash)), MakeRoute(cfg, meta, RuleWithProbe(b, hash)))
            <==> SameRule(cfg, a, b)
  {
    SortHostsCanonical(a.hosts, b.hosts);
    ProbedRouteRules(a.paths, b.paths, hash);
    ContentOfRoute(cfg, meta, RuleWithProbe(a, hash), RuleWithProbe(b, hash));
  }

  /** The routes an Ingress wants agree with each other, whatever its hash, exactly when any two rules
      that share their least host have, once defaulted, the same hosts up to order, the same visibility
      label and gateway, and paths that translate alike. By `ConvergesExactly` and
      `SecondPassQuietExactly` passes never come to rest otherwise. */
  lemma CompatibleExactly(cfg: Config, ing: IngressValue, hash: string)
    requires HostsGiven(ing.rules)
    ensures Compatible(Wants(cfg, ing, hash)) <==>
            forall i, j :: 0 <= i < j < |ing.rules| && ing.rules[i] in ing.rules && ing.rules[j] in ing.rules
                           && LeastHost(ing.rules[i].hosts) == LeastHost(ing.rules[j].hosts) ==>
              SameRule(cfg, Defaulted(ing).rules[i], Defaulted(ing).rules[j])
  {
    var wants, rules := Wants(cfg, ing, hash), Defaulted(ing).rules;
    forall i, j | 0 <= i < j < |rules|
      ensures ing.rules[i] in ing.rules && ing.rules[j] in ing.rules
      ensures KeyOf(wants[i]) == KeyOf(wants[j]) <==> LeastHost(ing.rules[i].hosts) == LeastHost(ing.rules[j].hosts)
      ensures SameContent(wants[i], wants[j]) <==> SameRule(cfg, rules[i], rules[j])
    {
      assert ing.rules[i] in ing.rules && ing.rules[j] in ing.rules;
      SameRuleSameWant(cfg, ing.meta, rules[i], rules[j], hash);
    }
  }

  /** So two rules with the same least host and different hosts conflict. */
  lemma SharedLeastHostConflicts(cfg: Config, ing: IngressValue, hash: string, i: nat, j: nat)
    requires HostsGiven(ing.rules) && i < j < |ing.rules|
    requires ing.rules[i].hosts != [] && ing.rules[j].hosts != []
    requires LeastHost(ing.rules[i].hosts) == LeastHost(ing.rules[j].hosts)
    requires multiset(ing.rules[i].hosts) != multiset(ing.rules[j].hosts)
    ensures !Compatible(Wants(cfg, ing, hash))
  {
    CompatibleExactly(cfg, ing, hash);
    assert !SameRule(cfg, Defaulted(ing).rules[i], Defaulted(ing).rules[j]);
  }

  // ---------- Routing by what is stored ----------

  ghost function Stored(s: Server, wants: seq<HTTPRoute>): seq<HTTPRoute>
    requires AllDesired(s, wants)
  {
    seq(|wants|, i requires 0 <= i < |wants| => assert Desired(s, wants[i]); s.routes[KeyOf(wants[i])])
  }

  lemma RoutingNeedsOnlySpecs(a: seq<HTTPRoute>, b: seq<HTTPRoute>, r: Request)
    requires |a| == |b| && forall i :: 0 <= i < |a| ==> a[i].spec == b[i].spec
    ensures RouteByRoutes(a, r) == RouteByRoutes(b, r)
  {
    assert RankTable(a, r, true) == RankTable(b, r, true) && RankTable(a, r, false) == RankTable(b, r, false);
  }

  /** The circumstances in which a pass publishes an Ingress: disjoint hosts, paths whose
      percentages total 100, a cache that tells no lie, and no error. */
  ghost predicate Publishes(w: World, env: Env, ing: IngressValue) {
    && HostsGiven(ing.rules) && DisjointHosts(ing.rules) && NamespaceOk(ing.meta.namespace)
    && DeliverableRules(Defaulted(ing).rules)
    && env.hash(Defaulted(ing)).Ok? && Sound(w)
    && NoFalseFresh(w, Wants(env.cfg, ing, env.hash(Defaulted(ing)).value))
    && ReconcileKind(w, env, ing).err.None?
  }

  /** `routes` are the routes stored under an Ingress's names after a pass, in any order. */
  ghost predicate LeftBehind(w: World, env: Env, ing: IngressValue, routes: seq<HTTPRoute>)
    requires Publishes(w, env, ing)
  {
    var wants, s := Wants(env.cfg, ing, env.hash(Defaulted(ing)).value), ReconcileKind(w, env, ing).world.server;
    AllDesired(s, wants) && multiset(routes) == multiset(Stored(s, wants))
  }

  lemma PublishedIsDesired(w: World, env: Env, ing: IngressValue)
    requires Publishes(w, env, ing)
    ensures AllDesired(ReconcileKind(w, env, ing).world.server, Wants(env.cfg, ing, env.hash(Defaulted(ing)).value))
  {
    var wants := Wants(env.cfg, ing, env.hash(Defaulted(ing)).value);
    DisjointHostsDistinctWants(env.cfg, ing, env.hash(Defaulted(ing)).value);
    Converges(w, env.fault, wants);
  }

  /** Disjoint hosts are listed by routes apart from each other. */
  lemma WantedApart(cfg: Config, ing: IngressValue, hash: string)
    requires HostsGiven(ing.rules) && DisjointHosts(ing.rules)
    ensures HostsApart(Wants(cfg, ing, hash)) && DisjointHosts(RulesWithProbe(Defaulted(ing).rules, hash))
  {
    var wants, rules := Wants(cfg, ing, hash), RulesWithProbe(Defaulted(ing).rules, hash);
    forall i, h | 0 <= i < |rules|
      ensures wants[i].spec.hostnames != [] && rules[i].hosts == ing.rules[i].hosts
      ensures h in wants[i].spec.hostnames <==> h in ing.rules[i].hosts
    {
      assert ing.rules[i] in ing.rules;
      RouteListsHosts(cfg, ing.meta, rules[i], h);
    }
  }

  lemma StoredIsWanted(w: World, env: Env, ing: IngressValue, routes: seq<HTTPRoute>, r: Request)
    requires Publishes(w, env, ing) && LeftBehind(w, env, ing, routes) && HasPrefix(r.path, "/")
    ensures RouteByRoutes(routes, r) ==
              RouteByIngress(RulesWithProbe(Defaulted(ing).rules, env.hash(Defaulted(ing)).value), r)
  {
    var hash := env.hash(Defaulted(ing)).value;
    var wants, rules := Wants(env.cfg, ing, hash), RulesWithProbe(Defaulted(ing).rules, hash);
    var stored := Stored(ReconcileKind(w, env, ing).world.server, wants);
    forall i | 0 <= i < |wants| ensures stored[i].spec == wants[i].spec {
      assert Desired(ReconcileKind(w, env, ing).world.server, wants[i]);
    }
    RoutingNeedsOnlySpecs(stored, wants, r);
    WantedApart(env.cfg, ing, hash);
    assert HostsApart(stored);
    OrderIrrelevant(stored, routes, r);
    ProbedRulesDeliver(Defaulted(ing).rules, hash);
    RoutingPreserved(env.cfg, ing.meta, rules, r);
    DisjointHostsCover(rules);
    CoverSuffices(rules, r);
  }

  /** After an error-free pass the routes stored under an Ingress's names, however the server orders
      them, send every client request to the backends, with the shares and the headers, that the
      defaulted Ingress promises; and so the Ingress as given, but for a lone backend without a share,
      which gets all traffic. */
  lemma StoredRoutingIsIngressRouting(w: World, env: Env, ing: IngressValue, routes: seq<HTTPRoute>, r: Request)
    requires Publishes(w, env, ing) && HasPrefix(r.path, "/") && !IsProbe(r)
    ensures AllDesired(ReconcileKind(w, env, ing).world.server, Wants(env.cfg, ing, env.hash(Defaulted(ing)).value))
    ensures LeftBehind(w, env, ing, routes) ==>
              && RouteByRoutes(routes, r) == RouteByIngress(Defaulted(ing).rules, r)
              && RouteByRoutes(routes, r) == WholeLoneShare(RouteByIngress(ing.rules, r))
              && ((forall rule, p :: rule in ing.rules && p in rule.paths ==> FullTraffic(p)) ==>
                    RouteByRoutes(routes, r) == RouteByIngress(ing.rules, r))
  {
    PublishedIsDesired(w, env, ing);
    if LeftBehind(w, env, ing, routes) {
      StoredIsWanted(w, env, ing, routes, r);
      ProbesInvisible(Defaulted(ing).rules, env.hash(Defaulted(ing)).value, r);
      DefaultingKeepsRouting(ing, r);
      if forall rule, p :: rule in ing.rules && p in rule.paths ==> FullTraffic(p) {
        FullTrafficNeedsNoDefault(ing.rules, r);
      }
    }
  }

  /** And they send every probe to the backends of the best path its host's rule has for it, telling
      them the hash of the very value the prober was asked about, which is the hash the prober compares
      with; and if the Ingress does not mention the hash header, that is where a client would go. */
  lemma StoredProbesTellTheHash(w: World, env: Env, ing: IngressValue, routes: seq<HTTPRoute>, r: Request)
    requires Publishes(w, env, ing) && HasPrefix(r.path, "/") && IsProbe(r)
    ensures AllDesired(ReconcileKind(w, env, ing).world.server, Wants(env.cfg, ing, env.hash(Defaulted(ing)).value))
    ensures LeftBehind(w, env, ing, routes) ==>
              var rules, hash := Defaulted(ing).rules, env.hash(Defaulted(ing)).value;
              && RouteByRoutes(routes, r) == ProbeByIngress(rules, hash, r)
              && (HashUnmentioned(rules) ==> AllProbedAs(RouteByRoutes(routes, r), RouteByIngress(rules, r), hash))
  {
    PublishedIsDesired(w, env, ing);
    if LeftBehind(w, env, ing, routes) {
      var rules, hash := Defaulted(ing).rules, env.hash(Defaulted(ing)).value;
      StoredIsWanted(w, env, ing, routes, r);
      ProbesOverRules(rules, hash, r);
      if HashUnmentioned(rules) { ProbesFollowClients(rules, hash, r); }
    }
  }

  // ---------- What is stored ----------

  /** The route stored for the `i`-th rule of a published Ingress, field by field: where it is, and the
      hosts, gateway, labels and annotations that it has; and the owners and the status, which are those
      of the route found, or of a route just made for this Ingress, with no status yet. */
  lemma StoredMetadata(w: World, env: Env, ing: IngressValue, i: nat)
    requires Publishes(w, env, ing) && i < |ing.rules| && ing.rules[i].hosts != []
    ensures var rule, s, k := ing.rules[i], ReconcileKind(w, env, ing).world.server,
                              (ing.meta.namespace, LeastHost(ing.rules[i].hosts));
            && k in s.routes
            && var route := s.routes[k];
            && multiset(route.spec.hostnames) == multiset(rule.hosts)
            && route.spec.gateways ==
                 Some(RouteGateways(FromList, [GatewayRef(env.cfg, if rule.visibility == Unset then ExternalIP
                                                                   else rule.visibility)]))
            && route.labels ==
                 ing.meta.labels[VISIBILITY_LABEL := if rule.visibility == ClusterLocal then "cluster-local" else ""]
            && route.annotations == ing.meta.annotations - {LAST_APPLIED}
            && (k in w.server.routes ==>
                  && route.owners == w.server.routes[k].owners && route.gateways == w.server.routes[k].gateways)
            && (k !in w.server.routes ==>
                  && route.owners == [OwnerReference(ing.meta.name, ing.meta.uid, true)] && route.gateways.None?)
  {
    var hash := env.hash(Defaulted(ing)).value;
    var wants := Wants(env.cfg, ing, hash);
    PublishedIsDesired(w, env, ing);
    DisjointHostsDistinctWants(env.cfg, ing, hash);
    WorldOfPass(w, env, ing, hash);
    WantedMetadata(env.cfg, ing, hash, i);
    assert Desired(ReconcileKind(w, env, ing).world.server, wants[i]);
    MarksJudge(w, env.fault, wants);
    if KeyOf(wants[i]) in w.server.routes {
      PassKeeps(w, env.fault, wants, KeyOf(wants[i]));
    } else {
      AddedAsWanted(w, env.fault, wants, i);
    }
  }

  lemma WantedMetadata(cfg: Config, ing: IngressValue, hash: string, i: nat)
    requires HostsGiven(ing.rules) && i < |ing.rules| && ing.rules[i].hosts != []
    ensures i < |Wants(cfg, ing, hash)|
    ensures var rule, want := ing.rules[i], Wants(cfg, ing, hash)[i];
            && want.namespace == ing.meta.namespace && want.name == LeastHost(rule.hosts)
            && multiset(want.spec.hostnames) == multiset(rule.hosts)
            && want.spec.gateways ==
                 Some(RouteGateways(FromList, [GatewayRef(cfg, if rule.visibility == Unset then ExternalIP
                                                               else rule.visibility)]))
            && want.labels ==
                 ing.meta.labels[VISIBILITY_LABEL := if rule.visibility == ClusterLocal then "cluster-local" else ""]
            && want.annotations == ing.meta.annotations - {LAST_APPLIED}
            && want.owners == [OwnerReference(ing.meta.name, ing.meta.uid, true)] && want.gateways.None?
  {
    SortHostsSorts(ing.rules[i].hosts);
    MetadataOfRoute(cfg, ing.meta, RuleWithProbe(DefaultRule(ing.rules[i]), hash));
  }

  // ---------- Status ----------

  lemma WantsProper(cfg: Config, ing: IngressValue, hash: string)
    requires HostsGiven(ing.rules) && NamespaceOk(ing.meta.namespace)
    ensures Proper(Wants(cfg, ing, hash)) && |Wants(cfg, ing, hash)| == |ing.rules|
  {
  }

  /** The route that the `i`-th rule of an Ingress is judged by in a pass. */
  ghost function JudgedRoute(w: World, env: Env, ing: IngressValue, i: nat): Option<HTTPRoute>
    requires HostsGiven(ing.rules) && i < |ing.rules|
  {
    var hash := env.hash(Defaulted(ing));
    if hash.Err? then None
    else Judged(w, ReconcileKind(w, env, ing).world.server, Wants(env.cfg, ing, hash.value)[i])
  }

  ghost predicate JudgedReady(w: World, env: Env, ing: IngressValue, i: nat)
    requires HostsGiven(ing.rules) && i < |ing.rules|
  {
    JudgedRoute(w, env, ing, i).Some? && RouteReady(JudgedRoute(w, env, ing, i).value)
  }

  /** The first rules have the routes they are judged by, and `readies` tells the readiness of these. */
  ghost predicate Tells(w: World, env: Env, ing: IngressValue, readies: seq<bool>)
    requires HostsGiven(ing.rules)
  {
    && |readies| <= |ing.rules|
    && forall i :: 0 <= i < |readies| ==>
         JudgedRoute(w, env, ing, i).Some? && readies[i] == JudgedReady(w, env, ing, i)
  }

  /** The readiness of the route each completed rule ended with, in rule order. */
  ghost function Readies(w: World, fault: nat -> Option<Fault>, wants: seq<HTTPRoute>): seq<bool>
    decreases |wants|
  {
    if wants == [] then []
    else
      var (w1, r) := ReconcileRoute(w, fault, wants[0]);
      if r.Err? then [] else [RouteReady(r.value)] + Readies(w1, fault, wants[1..])
  }

  lemma {:induction false} MarksFollowRules(w: World, fault: nat -> Option<Fault>, wants: seq<HTTPRoute>)
    ensures var out, readies := RunWants(w, fault, wants), Readies(w, fault, wants);
            && out.marks == RuleMarks(readies)
            && (out.err.None? ==> |readies| == |wants|) && (out.err.Some? ==> |readies| < |wants|)
    decreases |wants|
  {
    if wants != [] {
      var (w1, r) := ReconcileRoute(w, fault, wants[0]);
      if r.Ok? {
        MarksFollowRules(w1, fault, wants[1..]);
        RuleMarksCons(RouteReady(r.value), Readies(w1, fault, wants[1..]));
      }
    }
  }

  lemma RuleMarksCons(ready: bool, rest: seq<bool>)
    ensures RuleMarks([ready] + rest) == [RuleMark(ready)] + RuleMarks(rest)
  {
  }

  lemma ReadiesJudge(w: World, fault: nat -> Option<Fault>, wants: seq<HTTPRoute>)
    requires Sound(w) && Proper(wants)
    ensures var s, readies := RunWants(w, fault, wants).world.server, Readies(w, fault, wants);
            && |readies| <= |wants|
            && forall i :: 0 <= i < |readies| ==>
                 Judged(w, s, wants[i]).Some? && readies[i] == RouteReady(Judged(w, s, wants[i]).value)
  {
    MarksFollowRules(w, fault, wants);
    MarksJudge(w, fault, wants);
    var readies := Readies(w, fault, wants);
    assert forall i :: 0 <= i < |readies| ==> RuleMark(readies[i]) == RunWants(w, fault, wants).marks[i];
  }

  lemma ReadiesTell(w: World, env: Env, ing: IngressValue, hash: string)
    requires HostsGiven(ing.rules) && NamespaceOk(ing.meta.namespace) && Sound(w)
    requires env.hash(Defaulted(ing)) == Ok(hash)
    ensures Tells(w, env, ing, Readies(w, env.fault, Wants(env.cfg, ing, hash)))
  {
    var wants := Wants(env.cfg, ing, hash);
    WantsProper(env.cfg, ing, hash);
    ReadiesJudge(w, env.fault, wants);
    WorldOfPass(w, env, ing, hash);
    var s, readies := ReconcileKind(w, env, ing).world.server, Readies(w, env.fault, wants);
    forall i | 0 <= i < |readies|
      ensures JudgedRoute(w, env, ing, i).Some? && readies[i] == JudgedReady(w, env, ing, i)
    {
      assert JudgedRoute(w, env, ing, i) == Judged(w, s, wants[i]);
    }
  }

  lemma WorldOfPass(w: World, env: Env, ing: IngressValue, hash: string)
    requires HostsGiven(ing.rules) && env.hash(Defaulted(ing)) == Ok(hash)
    ensures ReconcileKind(w, env, ing).world == RunWants(w, env.fault, Wants(env.cfg, ing, hash)).world
  {
  }

  /** The trace of a pass: one mark per completed rule, in order, telling the readiness of the route the
      rule is judged by; then a single mark that follows the probe if nothing failed, and otherwise says
      that the Ingress is not ready. A pass that fails in its rules marks fewer rules than there are and
      no load balancer. */
  lemma TraceOfPass(w: World, env: Env, ing: IngressValue) returns (readies: seq<bool>)
    requires HostsGiven(ing.rules)
    ensures var out := ReconcileKind(w, env, ing);
            && |readies| <= |ing.rules|
            && (out.err.None? ==>
                  && |readies| == |ing.rules| && env.probe(Defaulted(ing)).Ok?
                  && out.marks == RuleMarks(readies) + [ProbeMark(env, env.probe(Defaulted(ing)).value)])
            && (out.err.Some? ==> out.marks == RuleMarks(readies) + [FAILED])
            && (|readies| < |ing.rules| ==> out.err.Some?)
    ensures Sound(w) && NamespaceOk(ing.meta.namespace) ==> Tells(w, env, ing, readies)
  {
    var hash := env.hash(Defaulted(ing));
    if hash.Ok? {
      var wants := Wants(env.cfg, ing, hash.value);
      MarksFollowRules(w, env.fault, wants);
      readies := Readies(w, env.fault, wants);
      if Sound(w) && NamespaceOk(ing.meta.namespace) { ReadiesTell(w, env, ing, hash.value); }
    } else {
      readies := [];
      assert RuleMarks([]) == [];
    }
  }

  lemma IngressReadyByMarks(w: World, env: Env, ing: IngressValue, status: IngressStatus)
    requires HostsGiven(ing.rules)
    ensures var out, start := ReconcileKind(w, env, ing), status.(conditions := status.conditions.Initialize());
            ApplyAll(start, out.marks).conditions.ready == Some(True) <==>
              && out.err.None? && env.probe(Defaulted(ing)) == Ok(true)
              && (MarkNetworkConfigured in out.marks || start.conditions.network == Some(True))
  {
    var out, start := ReconcileKind(w, env, ing), status.(conditions := status.conditions.Initialize());
    var readies := TraceOfPass(w, env, ing);
    if out.err.Some? {
      FailedNeverReady(start, RuleMarks(readies));
    } else {
      var lb := out.marks[|readies|];
      ReadyExactly(status, readies, env.probe(Defaulted(ing)).value, lb);
      assert MarkNetworkConfigured in out.marks <==> true in readies by {
        if i :| 0 <= i < |readies| && readies[i] { assert out.marks[i] == MarkNetworkConfigured; }
        if i :| 0 <= i < |out.marks| && out.marks[i] == MarkNetworkConfigured { assert i < |readies| && readies[i]; }
      }
    }
  }

  lemma NetworkMarkedExactly(w: World, env: Env, ing: IngressValue)
    requires HostsGiven(ing.rules) && NamespaceOk(ing.meta.namespace) && Sound(w)
    requires ReconcileKind(w, env, ing).err.None?
    ensures MarkNetworkConfigured in ReconcileKind(w, env, ing).marks <==>
            exists i :: 0 <= i < |ing.rules| && JudgedReady(w, env, ing, i)
  {
    var marks := ReconcileKind(w, env, ing).marks;
    var readies := TraceOfPass(w, env, ing);
    assert forall i :: 0 <= i < |readies| ==> marks[i] == RuleMark(readies[i]);
    if i :| 0 <= i < |ing.rules| && JudgedReady(w, env, ing, i) { assert marks[i] == MarkNetworkConfigured; }
    if i :| 0 <= i < |marks| && marks[i] == MarkNetworkConfigured { assert readies[i] && JudgedReady(w, env, ing, i); }
  }

  /** Whether the Ingress is reported ready after a pass, for every pass: it completed, the probe of the
      unmodified Ingress answered yes, and the network is configured, by a rule whose route was ready
      or by the status the pass began with. */
  lemma IngressReadyExactly(w: World, env: Env, ing: IngressValue, status: IngressStatus)
    requires HostsGiven(ing.rules) && NamespaceOk(ing.meta.namespace) && Sound(w)
    ensures var out, start := ReconcileKind(w, env, ing), status.(conditions := status.conditions.Initialize());
            ApplyAll(start, out.marks).conditions.ready == Some(True) <==>
              && out.err.None? && env.probe(Defaulted(ing)) == Ok(true)
              && ((exists i :: 0 <= i < |ing.rules| && JudgedReady(w, env, ing, i))
                  || start.conditions.network == Some(True))
  {
    IngressReadyByMarks(w, env, ing, status);
    if ReconcileKind(w, env, ing).err.None? { NetworkMarkedExactly(w, env, ing); }
  }

  /** How far a pass got and why it ended: a hash that cannot be had stops it before anything is done, a
      rule's error at that rule, and the prober is asked only when all rules are done. */
  lemma ErrorOfPass(w: World, env: Env, ing: IngressValue)
    requires HostsGiven(ing.rules)
    ensures var out, hash, probe := ReconcileKind(w, env, ing), env.hash(Defaulted(ing)), env.probe(Defaulted(ing));
            && (hash.Err? ==> out.err == Some(HashFailed(hash.error)) && out.world == w && |out.marks| == 1)
            && (hash.Ok? ==>
              var rules := RunWants(w, env.fault, Wants(env.cfg, ing, hash.value));
              && out.world == rules.world
              && out.err == (if rules.err.Some? then rules.err
                             else if probe.Err? then Some(ProbeFailed(probe.error))
                             else None)
              && |out.marks| == |rules.marks| + 1 && out.marks[..|rules.marks|] == rules.marks)
  {
  }

  /** The rules of a pass that are completed: all its marks but the closing one are theirs. */
  ghost function RulesDone(w: World, env: Env, ing: IngressValue): int
    requires HostsGiven(ing.rules)
  {
    |ReconcileKind(w, env, ing).marks| - 1
  }

  /** How the status `was` before a pass and is `now`: the network is configured if a completed rule was
      judged by a ready route, and else as it was; the load balancers follow the probe, and if there was
      none are as they were; Ready follows both, but is never true after an error; and the two domains are
      set if the probe answered yes, and else kept. What was unset counts as the Ingress's readiness. */
  ghost predicate Reported(w: World, env: Env, ing: IngressValue, was: IngressStatus, now: IngressStatus)
    requires HostsGiven(ing.rules)
  {
    var failed := ReconcileKind(w, env, ing).err.Some?;
    var probed := !failed && env.probe(Defaulted(ing)) == Ok(true);
    var found := exists i :: 0 <= i < RulesDone(w, env, ing) && i < |ing.rules| && JudgedReady(w, env, ing, i);
    var network := if found then True else AtStart(was.conditions.network, was.conditions.ready);
    var balancer := if failed then AtStart(was.conditions.loadBalancer, was.conditions.ready)
                    else if probed then True else Truth.Unknown;
    && now.conditions.network == Some(network) && now.conditions.loadBalancer == Some(balancer)
    && now.conditions.ready.Some?
    && (now.conditions.ready == Some(True) <==> network == True && probed)
    && (now.conditions.ready == Some(False) <==> network == False || balancer == False)
    && now.publicLb == (if probed then Some(ServiceHostname(env, ExternalIP)) else was.publicLb)
    && now.privateLb == (if probed then Some(ServiceHostname(env, ClusterLocal)) else was.privateLb)
  }

  /** What any pass reports, from any status. */
  lemma ReportedByPass(w: World, env: Env, ing: IngressValue, status: IngressStatus)
    requires HostsGiven(ing.rules) && NamespaceOk(ing.meta.namespace) && Sound(w)
    ensures Reported(w, env, ing, status,
                     ApplyAll(status.(conditions := status.conditions.Initialize()), ReconcileKind(w, env, ing).marks))
  {
    var out := ReconcileKind(w, env, ing);
    var readies := TraceOfPass(w, env, ing);
    var last := out.marks[|readies|];
    assert out.marks == RuleMarks(readies) + [last] && RulesDone(w, env, ing) == |readies|;
    TellsFound(w, env, ing, readies);
    StatusExactly(status, readies, last);
    ClosingMark(w, env, ing, readies, last);
  }

  lemma TellsFound(w: World, env: Env, ing: IngressValue, readies: seq<bool>)
    requires HostsGiven(ing.rules) && Tells(w, env, ing, readies) && |readies| == RulesDone(w, env, ing)
    ensures true in readies <==>
            exists i :: 0 <= i < RulesDone(w, env, ing) && i < |ing.rules| && JudgedReady(w, env, ing, i)
  {
    if i :| 0 <= i < |readies| && JudgedReady(w, env, ing, i) { assert readies[i]; }
  }

  lemma ClosingMark(w: World, env: Env, ing: IngressValue, readies: seq<bool>, last: Mark)
    requires HostsGiven(ing.rules) && ReconcileKind(w, env, ing).marks == RuleMarks(readies) + [last]
    ensures var out := ReconcileKind(w, env, ing);
            last == (if out.err.Some? then FAILED
                     else if env.probe(Defaulted(ing)) == Ok(true) then
                       MarkLoadBalancerReady(ServiceHostname(env, ExternalIP), ServiceHostname(env, ClusterLocal))
                     else MarkLoadBalancerNotReady)
  {
    var out := ReconcileKind(w, env, ing);
    var trace := TraceOfPass(w, env, ing);
    assert out.marks[|out.marks| - 1] == last;
  }

  /** A rule whose route the pass creates, its name not being cached, is marked as not ready. */
  lemma CreatedNotReady(w: World, env: Env, ing: IngressValue, hash: string, i: nat)
    requires HostsGiven(ing.rules) && NamespaceOk(ing.meta.namespace) && Sound(w)
    requires env.hash(Defaulted(ing)) == Ok(hash) && i < |ing.rules| && i < RulesDone(w, env, ing)
    requires i < |Wants(env.cfg, ing, hash)| && Cached(w, Wants(env.cfg, ing, hash)[i]).None?
    ensures !JudgedReady(w, env, ing, i) && ReconcileKind(w, env, ing).marks[i] == NOT_READY
  {
    var wants := Wants(env.cfg, ing, hash);
    WantsProper(env.cfg, ing, hash);
    assert ing.rules[i] in ing.rules;
    WantedMetadata(env.cfg, ing, hash, i);
    ErrorOfPass(w, env, ing);
    MarksJudge(w, env.fault, wants);
    CreatedAsWanted(w, env.fault, wants, i);
  }

  /** So a pass over a cache that holds none of an Ingress's names never ends ready, unless the network
      was configured before. */
  lemma FreshIngressNeverReady(w: World, env: Env, ing: IngressValue, hash: string, status: IngressStatus)
    requires HostsGiven(ing.rules) && NamespaceOk(ing.meta.namespace) && Sound(w)
    requires env.hash(Defaulted(ing)) == Ok(hash)
    requires forall want :: want in Wants(env.cfg, ing, hash) ==> Cached(w, want).None?
    requires status.conditions.network != Some(True)
    requires status.conditions.network.None? ==> status.conditions.ready != Some(True)
    ensures ApplyAll(status.(conditions := status.conditions.Initialize()), ReconcileKind(w, env, ing).marks)
              .conditions.ready != Some(True)
  {
    ReportedByPass(w, env, ing, status);
    WantsProper(env.cfg, ing, hash);
    forall i | 0 <= i < RulesDone(w, env, ing) && i < |ing.rules| ensures !JudgedReady(w, env, ing, i) {
      assert Wants(env.cfg, ing, hash)[i] in Wants(env.cfg, ing, hash);
      CreatedNotReady(w, env, ing, hash, i);
    }
  }

  /** A pass that completes, with a probe that answers yes, over disjoint hosts and a cache that has
      caught up, so that what it judges are the stored routes. */
  ghost predicate Completes(w: World, env: Env, ing: IngressValue) {
    && HostsGiven(ing.rules) && DisjointHosts(ing.rules) && NamespaceOk(ing.meta.namespace) && Sound(w)
    && env.hash(Defaulted(ing)).Ok? && CaughtUp(w, Wants(env.cfg, ing, env.hash(Defaulted(ing)).value))
    && ReconcileKind(w, env, ing).err.None? && env.probe(Defaulted(ing)) == Ok(true)
  }

  ghost predicate StoredReady(w: World, env: Env, ing: IngressValue, i: nat)
    requires Completes(w, env, ing) && i < |ing.rules|
  {
    var k := KeyOf(Wants(env.cfg, ing, env.hash(Defaulted(ing)).value)[i]);
    var route := RouteAt(ReconcileKind(w, env, ing).world.server, k);
    route.Some? && RouteReady(route.value)
  }

  lemma JudgedIsStored(w: World, env: Env, ing: IngressValue, i: nat)
    requires Completes(w, env, ing) && i < |ing.rules|
    ensures JudgedReady(w, env, ing, i) == StoredReady(w, env, ing, i)
  {
    var hash := env.hash(Defaulted(ing)).value;
    DisjointHostsDistinctWants(env.cfg, ing, hash);
    MarksJudge(w, env.fault, Wants(env.cfg, ing, hash));
    CaughtUpJudgesStored(w, env.fault, Wants(env.cfg, ing, hash), i);
  }

  /** "Ready means that all stored routes are ready" holds after such a pass exactly when they all are, or
      none is and the network was not configured before. */
  lemma ReadyMeansAllReadyExactly(w: World, env: Env, ing: IngressValue, status: IngressStatus)
    requires Completes(w, env, ing)
    ensures var out, start := ReconcileKind(w, env, ing), status.(conditions := status.conditions.Initialize());
            var all := forall i :: 0 <= i < |ing.rules| ==> StoredReady(w, env, ing, i);
            var some := exists i :: 0 <= i < |ing.rules| && StoredReady(w, env, ing, i);
            && (ApplyAll(start, out.marks).conditions.ready == Some(True) <==>
                  some || start.conditions.network == Some(True))
            && ((ApplyAll(start, out.marks).conditions.ready == Some(True) ==> all) <==>
                  all || (!some && start.conditions.network != Some(True)))
  {
    IngressReadyExactly(w, env, ing, status);
    forall i | 0 <= i < |ing.rules| ensures JudgedReady(w, env, ing, i) == StoredReady(w, env, ing, i) {
      JudgedIsStored(w, env, ing, i);
    }
  }

  /** A cluster that holds two routes, and a cache that shows them. */
  function TwoRoutes(a: HTTPRoute, b: HTTPRoute): World {
    World(Server(map[KeyOf(a) := a, KeyOf(b) := b], a.version + b.version),
          map[MetaNamespaceKey(a.namespace, a.name) := a, MetaNamespaceKey(b.namespace, b.name) := b], 0, [])
  }

  lemma TwoRoutesSound(a: HTTPRoute, b: HTTPRoute)
    requires NamespaceOk(a.namespace) && NamespaceOk(b.namespace) && KeyOf(a) != KeyOf(b)
    ensures var w := TwoRoutes(a, b);
            && Sound(w) && Cached(w, a) == RouteAt(w.server, KeyOf(a)) == Some(a)
            && Cached(w, b) == RouteAt(w.server, KeyOf(b)) == Some(b)
  {
    TwoKeys(a, b);
    var w := TwoRoutes(a, b);
    assert w.server.routes[KeyOf(a)] == a && w.server.routes[KeyOf(b)] == b;
    forall k | k in w.indexer ensures w.indexer[k] == a || w.indexer[k] == b {
    }
  }

  lemma TwoKeys(a: HTTPRoute, b: HTTPRoute)
    requires NamespaceOk(a.namespace) && NamespaceOk(b.namespace) && KeyOf(a) != KeyOf(b)
    ensures MetaNamespaceKey(a.namespace, a.name) == a.namespace + "/" + a.name
    ensures MetaNamespaceKey(b.namespace, b.name) == b.namespace + "/" + b.name
    ensures a.namespace + "/" + a.name != b.namespace + "/" + b.name
  {
    if a.namespace + "/" + a.name == b.namespace + "/" + b.name {
      ComposedKeyInjective(a.namespace, a.name, b.namespace, b.name);
    }
  }

  const ADMITTED_BY_ONE := [RouteGatewayStatus(GatewayReference("", ""), [Condition(ADMITTED, "True")])]
  const ADMITTED_BY_NONE := [RouteGatewayStatus(GatewayReference("", ""), [])]

  lemma AdmissionDecides(r: HTTPRoute)
    ensures RouteReady(r.(gateways := Some(ADMITTED_BY_ONE)))
    ensures !RouteReady(r.(gateways := Some(ADMITTED_BY_NONE)))
  {
    assert FirstAdmitted(ADMITTED_BY_ONE[0].conditions, 0) && ADMITTED_BY_NONE[0] in ADMITTED_BY_NONE;
  }

  /** For every Ingress of two rules with hosts of their own: a cluster that holds both its routes, one
      not admitted by its gateway, over which a pass completes and reports the Ingress ready. */
  lemma ReadyWithUnadmittedRoute(env: Env, ing: IngressValue, status: IngressStatus) returns (w: World)
    requires HostsGiven(ing.rules) && DisjointHosts(ing.rules) && NamespaceOk(ing.meta.namespace) && |ing.rules| == 2
    requires env.hash(Defaulted(ing)).Ok? && env.probe(Defaulted(ing)) == Ok(true)
    ensures Completes(w, env, ing) && !StoredReady(w, env, ing, 0) && ReconcileKind(w, env, ing).world == w
    ensures var start := status.(conditions := status.conditions.Initialize());
            ApplyAll(start, ReconcileKind(w, env, ing).marks).conditions.ready == Some(True)
  {
    var wants := Wants(env.cfg, ing, env.hash(Defaulted(ing)).value);
    DisjointHostsDistinctWants(env.cfg, ing, env.hash(Defaulted(ing)).value);
    var a, b := wants[0].(gateways := Some(ADMITTED_BY_NONE)), wants[1].(gateways := Some(ADMITTED_BY_ONE));
    w := TwoRoutes(a, b);
    TwoRoutesSound(a, b);
    AdmissionDecides(wants[0]);
    AdmissionDecides(wants[1]);
    forall i | 0 <= i < 2 ensures CaughtUpOn(w, wants[i]) && CachedDesired(w, wants[i]) {
      assert i == 0 || i == 1;
    }
    QuietExactly(w, env.fault, wants);
    assert StoredReady(w, env, ing, 1);
    ReadyMeansAllReadyExactly(w, env, ing, status);
  }

  /** With an accepted configuration the two domains reported are those of the configured services,
      the external one as public and the local one as private. */
  lemma LoadBalancersNameServices(
      env: Env, entry: map<Visibility, Entry>, eNs: string, eName: string, lNs: string, lName: string)
    requires Accepted(entry) && env.cfg == Some(ConfigOf(entry))
    requires '/' !in eNs && '/' !in eName && entry[ExternalIP].service == MetaNamespaceKey(eNs, eName)
    requires '/' !in lNs && '/' !in lName && entry[ClusterLocal].service == MetaNamespaceKey(lNs, lName)
    ensures ServiceHostname(env, ExternalIP) == eName + "." + eNs + ".svc." + env.domain
    ensures ServiceHostname(env, ClusterLocal) == lName + "." + lNs + ".svc." + env.domain
    ensures ProbeMark(env, true) == MarkLoadBalancerReady(eName + "." + eNs + ".svc." + env.domain,
                                                          lName + "." + lNs + ".svc." + env.domain)
  {
    SplitOfKey(eNs, eName);
    SplitOfKey(lNs, lName);
  }
}

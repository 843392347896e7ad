/** One reconcile pass as a function of values: the API server with optimistic concurrency, the
    informer's index, and the get, create, compare or update step taken for every rule. */
module Protocol {

  import opened Wrappers
  import opened GoStrings
  import opened IngressApi
  import opened GatewayApi
  import opened GatewayConfig
  import opened Resources
  import opened Routing
  import opened Status

  type Key = (string, string)

  function KeyOf(r: HTTPRoute): Key {
    (r.namespace, r.name)
  }

  // ---------- The API server ----------

  /** The stored routes and the last resource version handed out. */
  datatype Server = Server(routes: map<Key, HTTPRoute>, revision: nat)

  datatype Write = CreateRoute(route: HTTPRoute) | UpdateRoute(route: HTTPRoute)

  datatype Error =
    | AlreadyExists | NotFound | Conflict
    | Unavailable(message: string)
    | HashFailed(message: string)
    | ProbeFailed(message: string)

  /** What may go wrong on the way to the server: the call never arrives, or only its answer is lost. */
  datatype Fault = CallLost(message: string) | ReplyLost(message: string)

  function Store(s: Server, r: HTTPRoute): Server {
    Server(s.routes[KeyOf(r) := r.(version := s.revision + 1)], s.revision + 1)
  }

  /** Why the server refuses a write. An update must carry the stored version. */
  function Refusal(s: Server, w: Write): Option<Error> {
    match w
    case CreateRoute(r) => if KeyOf(r) in s.routes then Some(AlreadyExists) else None
    case UpdateRoute(r) =>
      if KeyOf(r) !in s.routes then Some(NotFound)
      else if s.routes[KeyOf(r)].version != r.version then Some(Conflict)
      else None
  }

  // ---------- The informer's index ----------

  /** `HTTPRoutes(namespace).Get(name)`: the index is keyed by one composed string. */
  function ListerGet(indexer: map<string, HTTPRoute>, namespace: string, name: string): Option<HTTPRoute> {
    var key := namespace + "/" + name;
    if key in indexer then Some(indexer[key]) else None
  }

  predicate NamespaceOk(namespace: string) {
    namespace != "" && '/' !in namespace
  }

  /** The index as client-go fills it: every object under its own composed key. */
  ghost predicate WellIndexed(indexer: map<string, HTTPRoute>) {
    forall k :: k in indexer ==>
      NamespaceOk(indexer[k].namespace) && k == MetaNamespaceKey(indexer[k].namespace, indexer[k].name)
  }

  /** The lister answers with the object of exactly that namespace and name, if there is one. */
  lemma ListerIsKeyed(indexer: map<string, HTTPRoute>, namespace: string, name: string)
    requires WellIndexed(indexer) && NamespaceOk(namespace)
    ensures match ListerGet(indexer, namespace, name)
            case Some(r) => r in indexer.Values && KeyOf(r) == (namespace, name)
            case None => forall r :: r in indexer.Values ==> KeyOf(r) != (namespace, name)
  {
    var key := namespace + "/" + name;
    if key in indexer {
      ComposedKeyInjective(indexer[key].namespace, indexer[key].name, namespace, name);
    }
  }

  // ---------- One rule ----------

  /** What a pass sees and changes: the server, the index (frozen during a pass), the number of
      calls made so far, and the keys written so far. */
  datatype World = World(server: Server, indexer: map<string, HTTPRoute>, calls: nat, writes: seq<Key>)

  predicate SameContent(a: HTTPRoute, b: HTTPRoute) {
    a.spec == b.spec && a.labels == b.labels && a.annotations == b.annotations
  }

  function WithContent(r: HTTPRoute, want: HTTPRoute): HTTPRoute {
    r.(spec := want.spec, annotations := want.annotations, labels := want.labels)
  }

  function Cached(w: World, want: HTTPRoute): Option<HTTPRoute> {
    ListerGet(w.indexer, want.namespace, want.name)
  }

  /** The write a rule calls for, if any, given what the cache shows. */
  function Decide(cached: Option<HTTPRoute>, want: HTTPRoute): Option<Write> {
    if cached.None? then Some(CreateRoute(want))
    else if SameContent(cached.value, want) then None
    else Some(UpdateRoute(WithContent(cached.value, want)))
  }

  function Call(w: World, fault: nat -> Option<Fault>, wr: Write): (World, Result<HTTPRoute, Error>) {
    var f, called := fault(w.calls), w.(calls := w.calls + 1);
    if f.Some? && f.value.CallLost? then (called, Err(Unavailable(f.value.message)))
    else if Refusal(w.server, wr).Some? then (called, Err(Refusal(w.server, wr).value))
    else
      var done := called.(server := Store(w.server, wr.route), writes := w.writes + [KeyOf(wr.route)]);
      (done, if f.Some? then Err(Unavailable(f.value.message)) else Ok(done.server.routes[KeyOf(wr.route)]))
  }

  /** `reconcileHTTPRoute` for the desired route. */
  function ReconcileRoute(w: World, fault: nat -> Option<Fault>, want: HTTPRoute): (World, Result<HTTPRoute, Error>) {
    var d := Decide(Cached(w, want), want);
    if d.None? then (w, Ok(Cached(w, want).value)) else Call(w, fault, d.value)
  }

  // ---------- All rules ----------

  datatype Outcome = Outcome(world: World, marks: seq<Mark>, err: Option<Error>)

  /** The rule loop: it stops at the first error and marks every rule it completes. */
  ghost function RunWants(w: World, fault: nat -> Option<Fault>, wants: seq<HTTPRoute>): Outcome
    decreases |wants|
  {
    if wants == [] then Outcome(w, [], None)
    else
      var (w1, r) := ReconcileRoute(w, fault, wants[0]);
      if r.Err? then Outcome(w1, [], Some(r.error))
      else
        var rest := RunWants(w1, fault, wants[1..]);
        rest.(marks := [RuleMark(RouteReady(r.value))] + rest.marks)
  }

  /** The surroundings of a pass: the loaded configuration, the cluster's domain, the fault the
      n-th call meets, the hash of an Ingress, and the prober's answer for it. */
  datatype Env = Env(
    cfg: Config, domain: string, fault: nat -> Option<Fault>,
    hash: IngressValue -> Result<string, string>, probe: IngressValue -> Result<bool, string>)

  /** `network.GetServiceHostname` of the configured service. */
  function ServiceHostname(env: Env, visibility: Visibility): string {
    var key := SplitMetaNamespaceKey(LookupService(env.cfg, visibility));
    var (ns, name) := if key.SplitOk? then (key.namespace, key.name) else ("", "");
    name + "." + ns + ".svc." + env.domain
  }

  function ProbeMark(env: Env, ready: bool): Mark {
    if ready then MarkLoadBalancerReady(ServiceHostname(env, ExternalIP), ServiceHostname(env, ClusterLocal))
    else MarkLoadBalancerNotReady
  }

  predicate HostsGiven(rules: seq<RuleValue>) {
    forall rule :: rule in rules ==> rule.hosts != []
  }

  lemma PreparedHosts(ing: IngressValue, hash: string)
    requires HostsGiven(ing.rules)
    ensures HostsGiven(RulesWithProbe(Defaulted(ing).rules, hash))
  {
    var rules := RulesWithProbe(Defaulted(ing).rules, hash);
    forall rule | rule in rules ensures rule.hosts != [] {
      var i :| 0 <= i < |rules| && rules[i] == rule;
      assert ing.rules[i] in ing.rules;
    }
  }

  /** The routes a pass wants for an Ingress whose hash is `hash`. */
  function Wants(cfg: Config, ing: IngressValue, hash: string): seq<HTTPRoute>
    requires HostsGiven(ing.rules)
  {
    PreparedHosts(ing, hash);
    MakeRoutes(cfg, ing.meta, RulesWithProbe(Defaulted(ing).rules, hash))
  }

  /** `reconcileIngress`: prepare, run the rules, then ask the prober about the Ingress as it was
      before the probe rules went in. */
  ghost function ReconcileIngress(w: World, env: Env, ing: IngressValue): Outcome
    requires HostsGiven(ing.rules)
  {
    var hash := env.hash(Defaulted(ing));
    if hash.Err? then Outcome(w, [], Some(HashFailed(hash.error)))
    else
      var out := RunWants(w, env.fault, Wants(env.cfg, ing, hash.value));
      if out.err.Some? then out
      else
        var ready := env.probe(Defaulted(ing));
        if ready.Err? then out.(err := Some(ProbeFailed(ready.error)))
        else out.(marks := out.marks + [ProbeMark(env, ready.value)])
  }

  /** `ReconcileKind`: an error adds one last mark. */
  ghost function ReconcileKind(w: World, env: Env, ing: IngressValue): Outcome
    requires HostsGiven(ing.rules)
  {
    var out := ReconcileIngress(w, env, ing);
    if out.err.Some? then out.(marks := out.marks + [FAILED]) else out
  }
}

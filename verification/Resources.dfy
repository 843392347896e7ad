/** The translation of an Ingress rule into an HTTPRoute. */
module Resources {

  import opened Wrappers
  import opened GoStrings
  import opened Matching
  import opened IngressApi
  import opened GatewayApi
  import opened GatewayConfig

  const VISIBILITY_LABEL := "networking.knative.dev/visibility"
  const LAST_APPLIED := "kubectl.kubernetes.io/last-applied-configuration"

  // ---------- Heap form of a rule ----------

  /** What a rule's HTTP pointer leads to. */
  class HTTPIngressRuleValue {
    var paths: seq<HTTPPath>

    constructor (paths: seq<HTTPPath>)
      ensures this.paths == paths
    {
      this.paths := paths;
    }
  }

  /** A rule as Go copies it: the host list and the HTTP block are shared with the original. */
  datatype IngressRule = IngressRule(hosts: array<string>, visibility: Visibility, http: HTTPIngressRuleValue) {
    function Value(): RuleValue
      reads hosts, http
    {
      RuleValue(hosts[..], visibility, http.paths)
    }
  }

  // ---------- The translation as a function of values ----------

  /** Go's `int32(x)`. */
  function ToInt32(x: int): int {
    (x + 0x8000_0000) % 0x1_0000_0000 - 0x8000_0000
  }

  predicate FitsInt32(x: int) {
    -0x8000_0000 <= x < 0x8000_0000
  }

  function RewriteSet(p: HTTPPath): map<string, string> {
    if p.rewriteHost == "" then map[] else map["Host" := p.rewriteHost, ":Authority" := p.rewriteHost]
  }

  function Forward(p: HTTPPath, s: BackendSplit): HTTPRouteForwardTo {
    HTTPRouteForwardTo(ToInt32(s.servicePort), s.serviceName, ToInt32(s.percent),
                       [RequestHeaderModifier(s.appendHeaders + RewriteSet(p))])
  }

  function Forwards(p: HTTPPath): seq<HTTPRouteForwardTo> {
    seq(|p.splits|, i requires 0 <= i < |p.splits| => Forward(p, p.splits[i]))
  }

  function ExactValues(headers: map<string, HeaderMatch>): map<string, string> {
    map k | k in headers :: headers[k].exact
  }

  function RouteRule(p: HTTPPath): HTTPRouteRule {
    HTTPRouteRule(
      Forwards(p),
      if p.appendHeaders.Some? then [RequestHeaderModifier(p.appendHeaders.value)] else [],
      [HTTPRouteMatch(
         Some(HTTPPathMatch(Prefix, EffectivePath(p))),
         if p.headers.Some? then Some(HTTPHeaderMatch(Exact, ExactValues(p.headers.value))) else None)])
  }

  function RouteRules(paths: seq<HTTPPath>): seq<HTTPRouteRule> {
    seq(|paths|, i requires 0 <= i < |paths| => RouteRule(paths[i]))
  }

  function GatewayRef(cfg: Config, visibility: Visibility): GatewayReference {
    var key := SplitMetaNamespaceKey(LookupGateway(cfg, visibility));
    if key.SplitOk? then GatewayReference(key.namespace, key.name) else GatewayReference("", "")
  }

  function MakeSpec(cfg: Config, rule: RuleValue): HTTPRouteSpec {
    HTTPRouteSpec(rule.hosts, RouteRules(rule.paths),
                  Some(RouteGateways(FromList, [GatewayRef(cfg, rule.visibility)])))
  }

  function VisibilityLabel(rule: RuleValue): string {
    if rule.visibility == ClusterLocal then "cluster-local" else ""
  }

  /** The desired route of a rule. Its host list is the sorted one. */
  function MakeRoute(cfg: Config, meta: ObjectMeta, rule: RuleValue): HTTPRoute
    requires rule.hosts != []
  {
    HTTPRoute(
      LeastHost(rule.hosts), meta.namespace,
      meta.labels + map[VISIBILITY_LABEL := VisibilityLabel(rule)],
      map k | k in meta.annotations && k != LAST_APPLIED :: meta.annotations[k],
      [OwnerReference(meta.name, meta.uid, true)],
      MakeSpec(cfg, rule.(hosts := SortHosts(rule.hosts))),
      None, 0)
  }

  /** The host that names a route. */
  function LeastHost(hosts: seq<string>): string
    requires hosts != []
  {
    SortHostsSorts(hosts);
    SortHosts(hosts)[0]
  }

  // ---------- The code ----------

  /** `LongestHost`: despite its name, the lexicographically least host. It sorts the slice it
      was given. */
  method LongestHost(hosts: array<string>) returns (host: string)
    requires hosts.Length > 0
    modifies hosts
    ensures hosts[..] == SortHosts(old(hosts[..]))
    ensures host == LeastHost(old(hosts[..]))
    ensures host in old(hosts[..]) && forall h :: h in old(hosts[..]) ==> Leq(host, h)
  {
    ghost var was := hosts[..];
    SortStrings(hosts);
    LeastHostIsLeast(was);
    host := hosts[0];
  }

  method UnionMaps(a: map<string, string>, b: map<string, string>) returns (out: map<string, string>)
    ensures out == a + b
  {
    out := map[];
    var rest := a.Keys;
    while rest != {}
      invariant rest <= a.Keys
      invariant out == map k | k in a && k !in rest :: a[k]
    {
      var k :| k in rest;
      out, rest := out[k := a[k]], rest - {k};
    }
    rest := b.Keys;
    while rest != {}
      invariant rest <= b.Keys
      invariant out == a + (map k | k in b && k !in rest :: b[k])
    {
      var k :| k in rest;
      out, rest := out[k := b[k]], rest - {k};
    }
  }

  method FilterAnnotations(annotations: map<string, string>) returns (out: map<string, string>)
    ensures out == map k | k in annotations && k != LAST_APPLIED :: annotations[k]
  {
    out := map[];
    var rest := annotations.Keys;
    while rest != {}
      invariant rest <= annotations.Keys
      invariant out == map k | k in annotations && k !in rest && k != LAST_APPLIED :: annotations[k]
    {
      var k :| k in rest;
      rest := rest - {k};
      if k == LAST_APPLIED { continue; }
      out := out[k := annotations[k]];
    }
  }

  method MakeForwards(path: HTTPPath) returns (forwards: seq<HTTPRouteForwardTo>)
    ensures forwards == Forwards(path)
  {
    forwards := [];
    var hostHeaders: map<string, string> := map[];
    if path.rewriteHost != "" {
      hostHeaders := map["Host" := path.rewriteHost, ":Authority" := path.rewriteHost];
    }
    for n := 0 to |path.splits|
      invariant forwards == Forwards(path)[..n]
    {
      var split := path.splits[n];
      var edits := UnionMaps(split.appendHeaders, hostHeaders);
      forwards := forwards + [HTTPRouteForwardTo(ToInt32(split.servicePort), split.serviceName,
                                                 ToInt32(split.percent), [RequestHeaderModifier(edits)])];
    }
  }

  method MakeHeadersMatch(headers: Option<map<string, HeaderMatch>>) returns (m: Option<HTTPHeaderMatch>)
    ensures m == if headers.Some? then Some(HTTPHeaderMatch(Exact, ExactValues(headers.value))) else None
  {
    m := None;
    if headers.Some? {
      var header: map<string, string> := map[];
      var rest := headers.value.Keys;
      while rest != {}
        invariant rest <= headers.value.Keys
        invariant header == map k | k in headers.value && k !in rest :: headers.value[k].exact
      {
        var k :| k in rest;
        header, rest := header[k := headers.value[k].exact], rest - {k};
      }
      assert header == ExactValues(headers.value);
      m := Some(HTTPHeaderMatch(Exact, header));
    }
  }

  method MakeHTTPRouteRule(paths: seq<HTTPPath>) returns (rules: seq<HTTPRouteRule>)
    ensures rules == RouteRules(paths)
  {
    rules := [];
    for n := 0 to |paths|
      invariant rules == RouteRules(paths)[..n]
    {
      var path := paths[n];
      var preFilters: seq<HTTPRouteFilter> := [];
      if path.appendHeaders.Some? {
        preFilters := [RequestHeaderModifier(path.appendHeaders.value)];
      }
      var forwards := MakeForwards(path);
      var pathPrefix := "/";
      if path.path != "" {
        pathPrefix := path.path;
      }
      var headersMatch := MakeHeadersMatch(path.headers);
      var matches := [HTTPRouteMatch(Some(HTTPPathMatch(Prefix, pathPrefix)), headersMatch)];
      rules := rules + [HTTPRouteRule(forwards, preFilters, matches)];
    }
  }

  method MakeHTTPRouteSpec(cfg: Config, rule: IngressRule) returns (spec: HTTPRouteSpec)
    ensures spec == MakeSpec(cfg, rule.Value())
  {
    var hostnames: seq<string> := [];
    for n := 0 to rule.hosts.Length
      invariant hostnames == rule.hosts[..n]
    {
      hostnames := hostnames + [rule.hosts[n]];
    }
    var rules := MakeHTTPRouteRule(rule.http.paths);
    var key := SplitMetaNamespaceKey(LookupGateway(cfg, rule.visibility));
    var ns, name := "", "";
    if key.SplitOk? {
      ns, name := key.namespace, key.name;
    }
    spec := HTTPRouteSpec(hostnames, rules, Some(RouteGateways(FromList, [GatewayReference(ns, name)])));
  }

  /** `MakeHTTPRoute`. The name is computed first, so the spec reads the hosts already sorted. */
  method MakeHTTPRoute(cfg: Config, meta: ObjectMeta, rule: IngressRule) returns (route: HTTPRoute)
    requires rule.hosts.Length > 0
    modifies rule.hosts
    ensures route == MakeRoute(cfg, meta, old(rule.Value()))
    ensures rule.hosts[..] == SortHosts(old(rule.hosts[..]))
  {
    var visibility := "";
    if rule.visibility == ClusterLocal {
      visibility := "cluster-local";
    }
    var name := LongestHost(rule.hosts);
    var labels := UnionMaps(meta.labels, map[VISIBILITY_LABEL := visibility]);
    var annotations := FilterAnnotations(meta.annotations);
    var spec := MakeHTTPRouteSpec(cfg, rule);
    var owner := OwnerReference(meta.name, meta.uid, true);
    route := HTTPRoute(name, meta.namespace, labels, annotations, [owner], spec, None, 0);
  }

  // ---------- Names and host lists ----------

  lemma LeastHostIsLeast(hosts: seq<string>)
    requires hosts != []
    ensures LeastHost(hosts) in hosts
    ensures forall h :: h in hosts ==> Leq(LeastHost(hosts), h)
  {
    SortHostsSorts(hosts);
    SameElements(hosts, LeastHost(hosts));
    forall h | h in hosts ensures Leq(LeastHost(hosts), h) {
      assert h in multiset(SortHosts(hosts));
      LeastIsFirst(SortHosts(hosts), h);
    }
  }

  /** Reordering a rule's hosts changes nothing in its route, and sorting them again nothing more. */
  lemma CanonicalRoute(cfg: Config, meta: ObjectMeta, rule: RuleValue, hosts: seq<string>)
    requires rule.hosts != [] && multiset(hosts) == multiset(rule.hosts)
    ensures hosts != [] && MakeRoute(cfg, meta, rule.(hosts := hosts)) == MakeRoute(cfg, meta, rule)
    ensures SortHosts(SortHosts(hosts)) == SortHosts(hosts)
  {
    assert |hosts| == |multiset(hosts)| == |rule.hosts|;
    SortHostsCanonical(hosts, rule.hosts);
    SortHostsSorts(hosts);
    SortHostsCanonical(SortHosts(hosts), hosts);
  }

  /** Rules that share no host have routes of different names. */
  lemma DisjointHostsDistinctNames(a: seq<string>, b: seq<string>)
    requires a != [] && b != [] && forall h :: h in a ==> h !in b
    ensures LeastHost(a) != LeastHost(b)
  {
    LeastHostIsLeast(a);
    LeastHostIsLeast(b);
  }

  // ---------- Labels, annotations and the gateway ----------

  /** The visibility label follows the rule whatever the Ingress's own label says; every other
      label survives; only the last-applied annotation is dropped; the route lives beside the
      Ingress, is controlled by it, and is named after its least host. */
  lemma MetadataOfRoute(cfg: Config, meta: ObjectMeta, rule: RuleValue)
    requires rule.hosts != []
    ensures var route := MakeRoute(cfg, meta, rule);
            && VISIBILITY_LABEL in route.labels
            && (route.labels[VISIBILITY_LABEL] == "cluster-local" <==> rule.visibility == ClusterLocal)
            && (rule.visibility != ClusterLocal ==> route.labels[VISIBILITY_LABEL] == "")
            && route.labels.Keys == meta.labels.Keys + {VISIBILITY_LABEL}
            && (forall k :: k in meta.labels && k != VISIBILITY_LABEL ==> route.labels[k] == meta.labels[k])
            && route.annotations.Keys == meta.annotations.Keys - {LAST_APPLIED}
            && (forall k :: k in route.annotations ==> route.annotations[k] == meta.annotations[k])
            && route.namespace == meta.namespace && route.owners == [OwnerReference(meta.name, meta.uid, true)]
            && route.name in rule.hosts && (forall h :: h in rule.hosts ==> Leq(route.name, h))
            && route.gateways.None? && route.version == 0
  {
    LeastHostIsLeast(rule.hosts);
  }

  /** With an accepted configuration the route of a known visibility is open to exactly that
      visibility's gateway: the parts of its only reference hold no separator and compose to the
      configured key. */
  lemma GatewayRefIsConfigured(entry: map<Visibility, Entry>, rule: RuleValue)
    requires Accepted(entry) && rule.visibility in entry
    ensures var gateways := MakeSpec(Some(ConfigOf(entry)), rule).gateways;
            && gateways.Some? && gateways.value.allow == FromList && |gateways.value.gatewayRefs| == 1
            && var ref, key := gateways.value.gatewayRefs[0], entry[rule.visibility].gateway;
            && '/' !in ref.namespace && '/' !in ref.name
            && (key == ref.namespace + "/" + ref.name || (key == ref.name && ref.namespace == ""))
  {
    var key := entry[rule.visibility].gateway;
    SplitJoin(key);
    var parts := Split(key);
    assert LookupGateway(Some(ConfigOf(entry)), rule.visibility) == key;
    if |parts| == 2 {
      assert parts[1..] == [parts[1]];
    }
  }

  // ---------- Weights ----------

  lemma Int32Exact(x: int)
    ensures ToInt32(x) == x <==> FitsInt32(x)
    ensures FitsInt32(ToInt32(x)) && (ToInt32(x) - x) % 0x1_0000_0000 == 0
  {
  }

  lemma {:induction false} WeightsArePercents(p: HTTPPath, n: nat)
    requires n <= |p.splits| && forall s :: s in p.splits ==> FitsInt32(s.percent)
    ensures WeightSum(Forwards(p)[..n]) == PercentSum(p.splits[..n])
  {
    if n > 0 {
      WeightsArePercents(p, n - 1);
      assert Forwards(p)[..n][..n - 1] == Forwards(p)[..n - 1] && p.splits[..n][..n - 1] == p.splits[..n - 1];
      assert p.splits[n - 1] in p.splits;
    }
  }

  /** No traffic is lost or moved: backends keep order and multiplicity, the weights total what
      the percentages total, and when that is 100 each share is the percentage. */
  lemma TrafficConserved(p: HTTPPath)
    requires forall s :: s in p.splits ==> 0 <= s.percent <= 100
    ensures var fs := RouteRule(p).forwardTo;
            && |fs| == |p.splits| && WeightSum(fs) == PercentSum(p.splits)
            && (forall i :: 0 <= i < |fs| ==>
                  fs[i].serviceName == p.splits[i].serviceName && fs[i].weight == p.splits[i].percent)
            && (PercentSum(p.splits) == 100 ==>
                  forall i :: 0 <= i < |fs| ==>
                    Share(fs[i].weight, WeightSum(fs)) == p.splits[i].percent as real / 100.0)
  {
    var fs := Forwards(p);
    WeightsArePercents(p, |fs|);
    assert fs[..|fs|] == fs && p.splits[..|fs|] == p.splits;
    forall i | 0 <= i < |fs| ensures fs[i].weight == p.splits[i].percent {
      assert p.splits[i] in p.splits;
    }
  }
}

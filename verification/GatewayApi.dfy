/** HTTPRoute values (Gateway API v1alpha1) and what the specification says they do
    to a request. Sequences and maps compare as the controller's semantic deep equality
    does: a nil collection and an empty one are the same value. */
module GatewayApi {

  import opened Wrappers
  import opened GoStrings
  import opened Matching

  datatype MatchType = Exact | Prefix | RegularExpression | ImplementationSpecific

  datatype HTTPPathMatch = HTTPPathMatch(kind: MatchType, value: string)

  datatype HTTPHeaderMatch = HTTPHeaderMatch(kind: MatchType, values: map<string, string>)

  datatype HTTPRouteMatch = HTTPRouteMatch(path: Option<HTTPPathMatch>, headers: Option<HTTPHeaderMatch>)

  datatype HTTPRouteFilter = RequestHeaderModifier(headers: map<string, string>) | RequestMirror | ExtensionRef

  datatype HTTPRouteForwardTo = HTTPRouteForwardTo(
    port: int, serviceName: string, weight: int, filters: seq<HTTPRouteFilter>)

  datatype HTTPRouteRule = HTTPRouteRule(
    forwardTo: seq<HTTPRouteForwardTo>, filters: seq<HTTPRouteFilter>, matches: seq<HTTPRouteMatch>)

  datatype GatewayAllowType = AllowAll | FromList | SameNamespace

  datatype GatewayReference = GatewayReference(namespace: string, name: string)

  datatype RouteGateways = RouteGateways(allow: GatewayAllowType, gatewayRefs: seq<GatewayReference>)

  datatype HTTPRouteSpec = HTTPRouteSpec(
    hostnames: seq<string>, rules: seq<HTTPRouteRule>, gateways: Option<RouteGateways>)

  datatype Condition = Condition(kind: string, status: string)

  datatype RouteGatewayStatus = RouteGatewayStatus(gateway: GatewayReference, conditions: seq<Condition>)

  datatype OwnerReference = OwnerReference(name: string, uid: string, controller: bool)

  /** The two fields of a route that only a reader of its status or the server touch are kept
      apart: `gateways` is the status list, `None` when nil, and `version` the resource version. */
  datatype HTTPRoute = HTTPRoute(
    name: string, namespace: string, labels: map<string, string>, annotations: map<string, string>,
    owners: seq<OwnerReference>, spec: HTTPRouteSpec,
    gateways: Option<seq<RouteGatewayStatus>>, version: nat)

  // ---------- Matching ----------

  /** A regular expression and an implementation's own match have no meaning here. */
  predicate MatchHolds(m: HTTPRouteMatch, r: Request) {
    && (match m.path
        case None => HasPrefix(r.path, "/")
        case Some(p) => (p.kind.Prefix? && HasPrefix(r.path, p.value)) || (p.kind.Exact? && r.path == p.value))
    && (match m.headers
        case None => true
        case Some(h) => h.kind.Exact? && forall k :: k in h.values ==> k in r.headers && r.headers[k] == h.values[k])
  }

  function MatchRank(m: HTTPRouteMatch, r: Request): Option<Rank> {
    if MatchHolds(m, r) then
      Some(Rank(if m.path.None? then 1 else |m.path.value.value|,
                if m.headers.None? then 0 else |m.headers.value.values|))
    else None
  }

  /** A rule matches through the best of its alternatives; with none it matches every path. */
  function RuleRank(rule: HTTPRouteRule, r: Request): Option<Rank> {
    var ms := if rule.matches == [] then [HTTPRouteMatch(None, None)] else rule.matches;
    BestRank(seq(|ms|, i requires 0 <= i < |ms| => MatchRank(ms[i], r)))
  }

  function RuleRanks(rules: seq<HTTPRouteRule>, r: Request): seq<Option<Rank>> {
    seq(|rules|, i requires 0 <= i < |rules| => RuleRank(rules[i], r))
  }

  // ---------- Filters and weights ----------

  function ApplyFilters(filters: seq<HTTPRouteFilter>, headers: map<string, string>): map<string, string> {
    if filters == [] then headers
    else
      var rest := ApplyFilters(filters[..|filters| - 1], headers);
      var last := filters[|filters| - 1];
      if last.RequestHeaderModifier? then rest + last.headers else rest
  }

  function WeightSum(forwards: seq<HTTPRouteForwardTo>): int {
    if forwards == [] then 0
    else WeightSum(forwards[..|forwards| - 1]) + forwards[|forwards| - 1].weight
  }

  /** The weight over the sum of all weights. */
  function Share(weight: int, sum: int): real {
    if sum == 0 then 0.0 else weight as real / sum as real
  }

  function ForwardTarget(rule: HTTPRouteRule, f: HTTPRouteForwardTo, r: Request): Target {
    Target(f.serviceName, f.port, Share(f.weight, WeightSum(rule.forwardTo)),
           ApplyFilters(f.filters, ApplyFilters(rule.filters, r.headers)))
  }

  function RuleTargets(rule: HTTPRouteRule, r: Request): seq<Target> {
    seq(|rule.forwardTo|, i requires 0 <= i < |rule.forwardTo| => ForwardTarget(rule, rule.forwardTo[i], r))
  }

  // ---------- Routing ----------

  /** A route lists the host, or, among the candidates of last resort, no host at all. */
  predicate Serves(spec: HTTPRouteSpec, host: string, listed: bool) {
    if listed then host in spec.hostnames else spec.hostnames == []
  }

  /** The ranks of all rules of the routes that serve the host. */
  function RankTable(routes: seq<HTTPRoute>, r: Request, listed: bool): seq<seq<Option<Rank>>> {
    seq(|routes|, i requires 0 <= i < |routes| =>
      if Serves(routes[i].spec, r.host, listed) then RuleRanks(routes[i].spec.rules, r) else [])
  }

  /** The route and the rule in it that a request maps to: the longest host name first (all names
      that match a host are as long as it, none is shorter), the longest path, the most headers; then
      the first route, in the order of age and name in which `routes` lists them, and its first rule. */
  function RoutePlace(routes: seq<HTTPRoute>, r: Request): (place: Option<Place>)
    ensures place.Some? ==> place.value.group < |routes| && place.value.item < |routes[place.value.group].spec.rules|
  {
    var listed := SelectAcross(RankTable(routes, r, true));
    if listed.Some? then listed else SelectAcross(RankTable(routes, r, false))
  }

  /** Where routes send a request. */
  function RouteByRoutes(routes: seq<HTTPRoute>, r: Request): Option<seq<Target>> {
    var place := RoutePlace(routes, r);
    if place.None? then None else Some(RuleTargets(routes[place.value.group].spec.rules[place.value.item], r))
  }

  /** The route and the rule a request maps to when age and name put the routes in the order `o`. */
  function PlaceInOrder(routes: seq<HTTPRoute>, o: seq<nat>, r: Request): Option<Place>
    requires forall a :: 0 <= a < |o| ==> o[a] < |routes|
  {
    Restored(RoutePlace(InOrder(routes, o), r), o)
  }

  // ---------- Routes with host names of their own ----------

  /** Every route lists hosts, and no two list the same one. */
  ghost predicate HostsApart(routes: seq<HTTPRoute>) {
    && (forall i :: 0 <= i < |routes| ==> routes[i].spec.hostnames != [])
    && forall i, j, h :: 0 <= i < j < |routes| && h in routes[i].spec.hostnames ==> h !in routes[j].spec.hostnames
  }

  function RouteBySpec(spec: HTTPRouteSpec, r: Request): Option<seq<Target>> {
    var i := Select(RuleRanks(spec.rules, r));
    if i.None? then None else Some(RuleTargets(spec.rules[i.value], r))
  }

  lemma NoLastResort(routes: seq<HTTPRoute>, r: Request)
    requires forall i :: 0 <= i < |routes| ==> routes[i].spec.hostnames != []
    ensures RoutePlace(routes, r) == SelectAcross(RankTable(routes, r, true))
  {
    SelectAcrossIsBest(RankTable(routes, r, false));
  }

  /** The only route that lists the host decides by its own rules. */
  lemma {:induction false} OnlyListedDecides(routes: seq<HTTPRoute>, r: Request, i: nat)
    requires HostsApart(routes) && i < |routes| && r.host in routes[i].spec.hostnames
    ensures RouteByRoutes(routes, r) == RouteBySpec(routes[i].spec, r)
  {
    var table, ranks := RankTable(routes, r, true), RuleRanks(routes[i].spec.rules, r);
    NoLastResort(routes, r);
    assert table[i] == ranks;
    assert forall q :: Matches(table, q) ==> q.group == i;
    var best := Select(ranks);
    if best.Some? {
      BestAcrossIsSelected(table, Place(i, best.value));
    } else {
      SelectAcrossIsBest(table);
    }
  }

  lemma NoneListed(routes: seq<HTTPRoute>, r: Request)
    requires HostsApart(routes) && forall i :: 0 <= i < |routes| ==> r.host !in routes[i].spec.hostnames
    ensures RouteByRoutes(routes, r) == None
  {
    NoLastResort(routes, r);
    SelectAcrossIsBest(RankTable(routes, r, true));
  }

  lemma ElsewhereIn(routes: seq<HTTPRoute>, i: nat, x: HTTPRoute)
    requires i < |routes| && multiset(routes)[x] > (if routes[i] == x then 1 else 0)
    ensures exists j :: 0 <= j < |routes| && j != i && routes[j] == x
  {
    assert routes == routes[..i] + [routes[i]] + routes[i + 1..];
    if x in routes[..i] {
      var j :| 0 <= j < i && routes[..i][j] == x;
      assert routes[j] == x;
    } else {
      assert x in routes[i + 1..];
      var j :| 0 <= j < |routes| - i - 1 && routes[i + 1..][j] == x;
      assert routes[i + 1 + j] == x;
    }
  }

  lemma HostsApartInAnyOrder(a: seq<HTTPRoute>, b: seq<HTTPRoute>)
    requires HostsApart(a) && multiset(b) == multiset(a)
    ensures HostsApart(b)
  {
    forall x | x in b ensures x in a {
      assert x in multiset(b);
    }
    forall i | 0 <= i < |b| ensures b[i].spec.hostnames != [] {
      assert b[i] in a;
    }
    forall i, j, h | 0 <= i < j < |b| && h in b[i].spec.hostnames ensures h !in b[j].spec.hostnames {
      assert b == b[..i] + [b[i]] + b[i + 1..j] + [b[j]] + b[j + 1..];
      assert b[i] in a && multiset(a)[b[j]] >= (if b[i] == b[j] then 2 else 1);
      var m :| 0 <= m < |a| && a[m] == b[i];
      ElsewhereIn(a, m, b[j]);
      var n :| 0 <= n < |a| && n != m && a[n] == b[j];
      assert m < n || n < m;
    }
  }

  /** Routes that list hosts apart from each other route alike in whatever order age and name put them. */
  lemma {:induction false} OrderIrrelevant(a: seq<HTTPRoute>, b: seq<HTTPRoute>, r: Request)
    requires HostsApart(a) && multiset(b) == multiset(a)
    ensures HostsApart(b) && RouteByRoutes(b, r) == RouteByRoutes(a, r)
  {
    HostsApartInAnyOrder(a, b);
    if i :| 0 <= i < |a| && r.host in a[i].spec.hostnames {
      assert a[i] in multiset(b);
      var j :| 0 <= j < |b| && b[j] == a[i];
      OnlyListedDecides(a, r, i);
      OnlyListedDecides(b, r, j);
    } else {
      forall j | 0 <= j < |b| ensures r.host !in b[j].spec.hostnames {
        assert b[j] in multiset(a);
      }
      NoneListed(a, r);
      NoneListed(b, r);
    }
  }
}

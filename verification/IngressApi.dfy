/** Ingress values (knative networking v1alpha1), their defaulting, the probe rules
    put in front of them, and what they promise about a request. */
module IngressApi {

  import opened Wrappers
  import opened GoStrings
  import opened Matching

  /** An IngressVisibility string: the empty one, the two known ones, or any other. */
  datatype Visibility = Unset | ExternalIP | ClusterLocal | Unknown(name: string)

  const HASH_HEADER := "K-Network-Hash"
  const HASH_HEADER_VALUE := "override"
  const HTTP_REDIRECTED := "Redirected"

  datatype HeaderMatch = HeaderMatch(exact: string)

  /** `servicePort` is the number `ServicePort.IntValue()` answers. */
  datatype BackendSplit = BackendSplit(
    serviceName: string, servicePort: int, percent: int, appendHeaders: map<string, string>)

  /** A nil map and an empty one are told apart only where the code does: `None` is nil. */
  datatype HTTPPath = HTTPPath(
    path: string, rewriteHost: string, headers: Option<map<string, HeaderMatch>>,
    splits: seq<BackendSplit>, appendHeaders: Option<map<string, string>>)

  datatype RuleValue = RuleValue(hosts: seq<string>, visibility: Visibility, paths: seq<HTTPPath>)

  datatype ObjectMeta = ObjectMeta(
    name: string, namespace: string, uid: string, labels: map<string, string>, annotations: map<string, string>)

  datatype IngressValue = IngressValue(meta: ObjectMeta, rules: seq<RuleValue>, httpOption: string)

  // ---------- Defaulting ----------

  function DefaultPath(p: HTTPPath): HTTPPath {
    if |p.splits| == 1 && p.splits[0].percent == 0 then p.(splits := [p.splits[0].(percent := 100)]) else p
  }

  function DefaultPaths(paths: seq<HTTPPath>): seq<HTTPPath> {
    seq(|paths|, i requires 0 <= i < |paths| => DefaultPath(paths[i]))
  }

  function DefaultRule(r: RuleValue): RuleValue {
    RuleValue(r.hosts, if r.visibility == Unset then ExternalIP else r.visibility, DefaultPaths(r.paths))
  }

  function Defaulted(ing: IngressValue): IngressValue {
    ing.(rules := seq(|ing.rules|, i requires 0 <= i < |ing.rules| => DefaultRule(ing.rules[i])))
  }

  // ---------- Probe rules ----------

  function HeadersOf(p: HTTPPath): map<string, HeaderMatch> {
    if p.headers.Some? then p.headers.value else map[]
  }

  function AppendOf(p: HTTPPath): map<string, string> {
    if p.appendHeaders.Some? then p.appendHeaders.value else map[]
  }

  /** The copy of a path that answers only probes and tells them the hash. */
  function ProbeTwin(p: HTTPPath, hash: string): HTTPPath {
    p.(headers := Some(HeadersOf(p)[HASH_HEADER := HeaderMatch(HASH_HEADER_VALUE)]),
       appendHeaders := Some(AppendOf(p)[HASH_HEADER := hash]))
  }

  function Twins(paths: seq<HTTPPath>, hash: string): seq<HTTPPath> {
    seq(|paths|, i requires 0 <= i < |paths| => ProbeTwin(paths[i], hash))
  }

  function WithProbe(paths: seq<HTTPPath>, hash: string): seq<HTTPPath> {
    Twins(paths, hash) + paths
  }

  function RuleWithProbe(r: RuleValue, hash: string): RuleValue {
    r.(paths := WithProbe(r.paths, hash))
  }

  function RulesWithProbe(rules: seq<RuleValue>, hash: string): seq<RuleValue> {
    seq(|rules|, i requires 0 <= i < |rules| => RuleWithProbe(rules[i], hash))
  }

  // ---------- What an Ingress promises ----------

  /** The prefix a path stands for: `/` when none is given. */
  function EffectivePath(p: HTTPPath): string {
    if p.path == "" then "/" else p.path
  }

  /** A literal prefix (nothing given means everything) and every header exactly. */
  predicate PathMatches(p: HTTPPath, r: Request) {
    && (p.path == "" || HasPrefix(r.path, p.path))
    && forall k :: k in HeadersOf(p) ==> k in r.headers && r.headers[k] == HeadersOf(p)[k].exact
  }

  function PathRank(p: HTTPPath, r: Request): Option<Rank> {
    if PathMatches(p, r) then Some(Rank(|EffectivePath(p)|, |HeadersOf(p)|)) else None
  }

  function PathRanks(paths: seq<HTTPPath>, r: Request): seq<Option<Rank>> {
    seq(|paths|, i requires 0 <= i < |paths| => PathRank(paths[i], r))
  }

  function HostKeys(p: HTTPPath): set<string> {
    if p.rewriteHost == "" then {} else {"Host", ":Authority"}
  }

  /** The headers a backend receives, key by key: a rewritten host beats the split's own
      header, which beats the path's, which beats the client's. */
  function DeliveredHeaders(p: HTTPPath, s: BackendSplit, h: map<string, string>): map<string, string> {
    map k | k in h.Keys + AppendOf(p).Keys + s.appendHeaders.Keys + HostKeys(p) ::
      if k in HostKeys(p) then p.rewriteHost
      else if k in s.appendHeaders then s.appendHeaders[k]
      else if k in AppendOf(p) then AppendOf(p)[k]
      else h[k]
  }

  function SplitTarget(p: HTTPPath, s: BackendSplit, r: Request): Target {
    Target(s.serviceName, s.servicePort, s.percent as real / 100.0, DeliveredHeaders(p, s, r.headers))
  }

  /** Each split's backend with its percentage of the traffic. */
  function PathTargets(p: HTTPPath, r: Request): seq<Target> {
    seq(|p.splits|, i requires 0 <= i < |p.splits| => SplitTarget(p, p.splits[i], r))
  }

  /** In a rule, the path with the longest prefix, then the most headers, then the earliest. */
  function RouteByPaths(paths: seq<HTTPPath>, r: Request): Option<seq<Target>> {
    var i := Select(PathRanks(paths, r));
    if i.None? then None else Some(PathTargets(paths[i.value], r))
  }

  /** The first rule that owns a host. */
  function FirstOwner(rules: seq<RuleValue>, host: string): (owner: Option<nat>)
    ensures owner.None? <==> forall i :: 0 <= i < |rules| ==> host !in rules[i].hosts
    ensures owner.Some? ==> owner.value < |rules| && host in rules[owner.value].hosts
    ensures owner.Some? ==> forall i :: 0 <= i < owner.value ==> host !in rules[i].hosts
  {
    if rules == [] then None
    else if host in rules[0].hosts then Some(0)
    else
      var rest := FirstOwner(rules[1..], host);
      assert forall i :: 0 < i < |rules| ==> rules[i] == rules[1..][i - 1];
      if rest.None? then None else Some(rest.value + 1)
  }

  /** Where the rules send a request: the first rule that owns the host decides. */
  function RouteByIngress(rules: seq<RuleValue>, r: Request): Option<seq<Target>> {
    var owner := FirstOwner(rules, r.host);
    if owner.None? then None else RouteByPaths(rules[owner.value].paths, r)
  }

  /** The rule and the path in it by which a request goes there. */
  function IngressPlace(rules: seq<RuleValue>, r: Request): (place: Option<Place>)
    ensures place.Some? ==> place.value.group < |rules| && place.value.item < |rules[place.value.group].paths|
    ensures RouteByIngress(rules, r) ==
              if place.None? then None else Some(PathTargets(rules[place.value.group].paths[place.value.item], r))
  {
    var owner := FirstOwner(rules, r.host);
    if owner.None? then None
    else
      var i := Select(PathRanks(rules[owner.value].paths, r));
      if i.None? then None else Some(Place(owner.value, i.value))
  }

  // ---------- What the webhook admits ----------

  function PercentSum(splits: seq<BackendSplit>): int {
    if splits == [] then 0 else PercentSum(splits[..|splits| - 1]) + splits[|splits| - 1].percent
  }

  /** `HTTPIngressPath.Validate` on the percentages: a lone split may leave its own out. */
  predicate AdmittedPath(p: HTTPPath) {
    && p.splits != []
    && (forall s :: s in p.splits ==> 0 <= s.percent <= 100)
    && (PercentSum(p.splits) == 100 || (|p.splits| == 1 && PercentSum(p.splits) == 0))
  }

  predicate FullTraffic(p: HTTPPath) {
    (forall s :: s in p.splits ==> 0 <= s.percent <= 100) && PercentSum(p.splits) == 100
  }

  /** Defaulting turns every admitted path into one whose percentages total 100. */
  lemma DefaultingCompletes(p: HTTPPath)
    requires AdmittedPath(p)
    ensures FullTraffic(DefaultPath(p))
    ensures DefaultPath(DefaultPath(p)) == DefaultPath(p)
  {
    if |p.splits| == 1 {
      assert p.splits[..0] == [] && p.splits[0] in p.splits;
      var one := [p.splits[0].(percent := 100)];
      assert one[..0] == [];
    }
  }

  /** Defaulting leaves no visibility unset, changes no other, keeps all hosts, and is idempotent. */
  lemma DefaultedIsSettled(ing: IngressValue)
    ensures Defaulted(Defaulted(ing)) == Defaulted(ing)
    ensures forall i :: 0 <= i < |ing.rules| ==>
              var r := Defaulted(ing).rules[i];
              && r.visibility == (if ing.rules[i].visibility == Unset then ExternalIP else ing.rules[i].visibility)
              && r.hosts == ing.rules[i].hosts && |r.paths| == |ing.rules[i].paths|
  {
    forall i | 0 <= i < |ing.rules| ensures DefaultRule(DefaultRule(ing.rules[i])) == DefaultRule(ing.rules[i]) {
      var paths := ing.rules[i].paths;
      forall j | 0 <= j < |paths| ensures DefaultPath(DefaultPath(paths[j])) == DefaultPath(paths[j]) {
      }
      assert DefaultPaths(DefaultPaths(paths)) == DefaultPaths(paths);
    }
    assert Defaulted(Defaulted(ing)).rules == Defaulted(ing).rules;
  }

  // ---------- Defaulting changes nothing else ----------

  /** `q` is `p` but for the percentage of a lone split at 0, which is 100. */
  ghost predicate OnlyDefaultedPath(p: HTTPPath, q: HTTPPath) {
    && q.path == p.path && q.rewriteHost == p.rewriteHost
    && q.headers == p.headers && q.appendHeaders == p.appendHeaders && |q.splits| == |p.splits|
    && forall i :: 0 <= i < |p.splits| ==>
         && q.splits[i].serviceName == p.splits[i].serviceName && q.splits[i].servicePort == p.splits[i].servicePort
         && q.splits[i].appendHeaders == p.splits[i].appendHeaders
         && q.splits[i].percent == if |p.splits| == 1 && p.splits[i].percent == 0 then 100 else p.splits[i].percent
  }

  /** `now` is `was` but for such percentages and for visibilities that were not set. */
  ghost predicate OnlyDefaulted(was: IngressValue, now: IngressValue) {
    && now.meta == was.meta && now.httpOption == was.httpOption && |now.rules| == |was.rules|
    && forall i :: 0 <= i < |was.rules| ==>
         var a, b := was.rules[i], now.rules[i];
         && b.hosts == a.hosts && b.visibility == (if a.visibility == Unset then ExternalIP else a.visibility)
         && |b.paths| == |a.paths|
         && forall j :: 0 <= j < |a.paths| ==> OnlyDefaultedPath(a.paths[j], b.paths[j])
  }

  lemma DefaultingChangesNothingElse(ing: IngressValue)
    ensures OnlyDefaulted(ing, Defaulted(ing))
  {
    forall i, j | 0 <= i < |ing.rules| && 0 <= j < |ing.rules[i].paths|
      ensures OnlyDefaultedPath(ing.rules[i].paths[j], Defaulted(ing).rules[i].paths[j])
    {
    }
  }

  /** All traffic for a lone backend without a share. */
  function WholeLoneShare(targets: Option<seq<Target>>): Option<seq<Target>> {
    if targets.Some? && |targets.value| == 1 && targets.value[0].share == 0.0 then
      Some([targets.value[0].(share := 1.0)])
    else targets
  }

  lemma DefaultedOwner(ing: IngressValue, host: string)
    ensures FirstOwner(Defaulted(ing).rules, host) == FirstOwner(ing.rules, host)
  {
    var now := Defaulted(ing).rules;
    assert forall i :: 0 <= i < |ing.rules| ==> now[i].hosts == ing.rules[i].hosts;
    var a, b := FirstOwner(now, host), FirstOwner(ing.rules, host);
    if a.Some? && b.Some? { assert !(a.value < b.value) && !(b.value < a.value); }
  }

  lemma DefaultedPaths(paths: seq<HTTPPath>, r: Request)
    ensures PathRanks(DefaultPaths(paths), r) == PathRanks(paths, r)
    ensures RouteByPaths(DefaultPaths(paths), r) == WholeLoneShare(RouteByPaths(paths, r))
  {
    forall i | 0 <= i < |paths| ensures PathRank(DefaultPath(paths[i]), r) == PathRank(paths[i], r) {
    }
    assert PathRanks(DefaultPaths(paths), r) == PathRanks(paths, r);
    var best := Select(PathRanks(paths, r));
    if best.Some? { DefaultedTargets(paths[best.value], r); }
  }

  lemma DefaultedTargets(p: HTTPPath, r: Request)
    ensures Some(PathTargets(DefaultPath(p), r)) == WholeLoneShare(Some(PathTargets(p, r)))
  {
    if |p.splits| == 1 && p.splits[0].percent == 0 {
      assert PathTargets(DefaultPath(p), r) == [SplitTarget(p, p.splits[0], r).(share := 1.0)];
    } else if |p.splits| == 1 {
      assert PathTargets(p, r)[0].share == p.splits[0].percent as real / 100.0;
    }
  }

  /** Defaulting changes no routing: a request goes by the same rule and path to the same backends, and
      a lone backend without a share gets all traffic. */
  lemma DefaultingKeepsRouting(ing: IngressValue, r: Request)
    ensures IngressPlace(Defaulted(ing).rules, r) == IngressPlace(ing.rules, r)
    ensures RouteByIngress(Defaulted(ing).rules, r) == WholeLoneShare(RouteByIngress(ing.rules, r))
  {
    DefaultedOwner(ing, r.host);
    var owner := FirstOwner(ing.rules, r.host);
    if owner.Some? { DefaultedPaths(ing.rules[owner.value].paths, r); }
  }

  /** Where percentages total 100 no backend is without a share. */
  lemma FullTrafficNeedsNoDefault(rules: seq<RuleValue>, r: Request)
    requires forall rule, p :: rule in rules && p in rule.paths ==> FullTraffic(p)
    ensures WholeLoneShare(RouteByIngress(rules, r)) == RouteByIngress(rules, r)
  {
    var place := IngressPlace(rules, r);
    if place.Some? {
      var rule := rules[place.value.group];
      var p := rule.paths[place.value.item];
      assert rule in rules && p in rule.paths;
      if |p.splits| == 1 {
        assert p.splits[..|p.splits| - 1] == [] && PercentSum(p.splits) == p.splits[0].percent;
        assert FullTraffic(p) && p.splits[0].percent == 100;
        assert PathTargets(p, r)[0].share == 1.0;
      }
    }
  }

  // ---------- Probe rules change nothing for clients ----------

  predicate IsProbe(r: Request) {
    HASH_HEADER in r.headers && r.headers[HASH_HEADER] == HASH_HEADER_VALUE
  }

  lemma TwinsAnswerProbesOnly(p: HTTPPath, hash: string, r: Request)
    ensures PathMatches(ProbeTwin(p, hash), r) ==> IsProbe(r)
  {
    assert HASH_HEADER in HeadersOf(ProbeTwin(p, hash));
  }

  lemma RanksWithProbe(paths: seq<HTTPPath>, hash: string, r: Request)
    ensures PathRanks(WithProbe(paths, hash), r) == PathRanks(Twins(paths, hash), r) + PathRanks(paths, r)
  {
  }

  /** A request that is no probe reaches the path it would have reached without the twins. */
  lemma {:induction false} ClientsSeeNoTwins(paths: seq<HTTPPath>, hash: string, r: Request)
    requires !IsProbe(r)
    ensures var before, after := Select(PathRanks(paths, r)), Select(PathRanks(WithProbe(paths, hash), r));
            after == if before.None? then None else Some(|paths| + before.value)
  {
    var twins := PathRanks(Twins(paths, hash), r);
    forall i | 0 <= i < |twins| ensures twins[i].None? {
      TwinsAnswerProbesOnly(paths[i], hash, r);
    }
    RanksWithProbe(paths, hash, r);
    SelectBehindMisses(twins, PathRanks(paths, r));
  }

  /** A path without what it asks of the hash header, if anything. */
  function Stripped(p: HTTPPath): (q: HTTPPath)
    ensures HASH_HEADER !in HeadersOf(p) ==> q == p
  {
    if p.headers.None? then p
    else
      assert HASH_HEADER !in p.headers.value ==> p.headers.value - {HASH_HEADER} == p.headers.value;
      p.(headers := Some(p.headers.value - {HASH_HEADER}))
  }

  function StrippedPaths(paths: seq<HTTPPath>): (bare: seq<HTTPPath>)
    ensures (forall p :: p in paths ==> HASH_HEADER !in HeadersOf(p)) ==> bare == paths
  {
    seq(|paths|, i requires 0 <= i < |paths| => Stripped(paths[i]))
  }

  lemma TwinHeaders(p: HTTPPath, hash: string)
    ensures var h, bare, twin := HeadersOf(p), HeadersOf(Stripped(p)), HeadersOf(ProbeTwin(p, hash));
            && bare == h - {HASH_HEADER} && twin == bare[HASH_HEADER := HeaderMatch(HASH_HEADER_VALUE)]
            && |twin| == |bare| + 1 && |h| <= |twin|
  {
    var h, bare, twin := HeadersOf(p), HeadersOf(Stripped(p)), HeadersOf(ProbeTwin(p, hash));
    assert bare.Keys == h.Keys - {HASH_HEADER} && twin.Keys == bare.Keys + {HASH_HEADER};
    assert |twin.Keys| == |bare.Keys| + 1;
    if HASH_HEADER in h {
      assert h.Keys == twin.Keys;
    } else {
      assert h.Keys == bare.Keys;
    }
  }

  /** For a probe a twin is its path without the hash header, plus one header that matches. */
  lemma TwinOfBare(p: HTTPPath, hash: string, r: Request)
    requires IsProbe(r)
    ensures OneHeaderMore(PathRank(ProbeTwin(p, hash), r), PathRank(Stripped(p), r))
    ensures Under(PathRank(p, r), PathRank(ProbeTwin(p, hash), r))
  {
    TwinHeaders(p, hash);
    assert PathMatches(ProbeTwin(p, hash), r) <==> PathMatches(Stripped(p), r);
    assert PathMatches(p, r) ==> PathMatches(Stripped(p), r);
  }

  /** A probe reaches the twin of the path a client would have reached if no path asked anything of
      the hash header; and so of the path it does reach, if none does. */
  lemma {:induction false} ProbesReachTwins(paths: seq<HTTPPath>, hash: string, r: Request)
    requires IsProbe(r)
    ensures Select(PathRanks(WithProbe(paths, hash), r)) == Select(PathRanks(StrippedPaths(paths), r))
  {
    var twins, plain := PathRanks(Twins(paths, hash), r), PathRanks(paths, r);
    var bare := PathRanks(StrippedPaths(paths), r);
    forall i | 0 <= i < |bare| ensures OneHeaderMore(twins[i], bare[i]) && Under(plain[i], twins[i]) {
      TwinOfBare(paths[i], hash, r);
    }
    RanksWithProbe(paths, hash, r);
    SelectTwins(twins, plain, bare);
  }

  // ---------- Where probes go ----------

  /** What a backend is told in answer to a probe: the hash, unless its split has a header of its own. */
  function Told(s: BackendSplit, hash: string): string {
    if HASH_HEADER in s.appendHeaders then s.appendHeaders[HASH_HEADER] else hash
  }

  /** A client's target, told the hash. */
  function ProbedTarget(p: HTTPPath, s: BackendSplit, hash: string, r: Request): Target {
    var plain := SplitTarget(p, s, r);
    plain.(headers := plain.headers[HASH_HEADER := Told(s, hash)])
  }

  function ProbedTargets(p: HTTPPath, hash: string, r: Request): seq<Target> {
    seq(|p.splits|, i requires 0 <= i < |p.splits| => ProbedTarget(p, p.splits[i], hash, r))
  }

  /** Where a probe for `hash` is meant to go. */
  function ProbeByPaths(paths: seq<HTTPPath>, hash: string, r: Request): Option<seq<Target>> {
    var i := Select(PathRanks(StrippedPaths(paths), r));
    if i.None? then None else Some(ProbedTargets(paths[i.value], hash, r))
  }

  function ProbeByIngress(rules: seq<RuleValue>, hash: string, r: Request): Option<seq<Target>> {
    var owner := FirstOwner(rules, r.host);
    if owner.None? then None else ProbeByPaths(rules[owner.value].paths, hash, r)
  }

  lemma TwinDeliversAt(p: HTTPPath, s: BackendSplit, hash: string, h: map<string, string>, k: string)
    ensures var twin, plain := DeliveredHeaders(ProbeTwin(p, hash), s, h), DeliveredHeaders(p, s, h);
            && (k in twin <==> k in plain || k == HASH_HEADER)
            && (k in twin ==> twin[k] == if k == HASH_HEADER then Told(s, hash) else plain[k])
  {
    assert AppendOf(ProbeTwin(p, hash)) == AppendOf(p)[HASH_HEADER := hash];
  }

  lemma TwinDelivers(p: HTTPPath, s: BackendSplit, hash: string, h: map<string, string>)
    ensures DeliveredHeaders(ProbeTwin(p, hash), s, h) == DeliveredHeaders(p, s, h)[HASH_HEADER := Told(s, hash)]
  {
    forall k { TwinDeliversAt(p, s, hash, h, k); }
  }

  lemma TwinTargets(p: HTTPPath, hash: string, r: Request)
    ensures PathTargets(ProbeTwin(p, hash), r) == ProbedTargets(p, hash, r)
  {
    forall i | 0 <= i < |p.splits| ensures PathTargets(ProbeTwin(p, hash), r)[i] == ProbedTargets(p, hash, r)[i] {
      TwinDelivers(p, p.splits[i], hash, r.headers);
    }
  }

  /** With the probe rules in front a probe ends where it is meant to: at the backends of the best
      path, with their shares and headers, and the hash. */
  lemma {:induction false} ProbesCarryTheHash(paths: seq<HTTPPath>, hash: string, r: Request)
    requires IsProbe(r)
    ensures RouteByPaths(WithProbe(paths, hash), r) == ProbeByPaths(paths, hash, r)
  {
    ProbesReachTwins(paths, hash, r);
    var best := Select(PathRanks(StrippedPaths(paths), r));
    if best.Some? {
      assert WithProbe(paths, hash)[best.value] == ProbeTwin(paths[best.value], hash);
      TwinTargets(paths[best.value], hash, r);
    }
  }

  lemma SameOwner(rules: seq<RuleValue>, hash: string, host: string)
    ensures FirstOwner(RulesWithProbe(rules, hash), host) == FirstOwner(rules, host)
  {
    var probed := RulesWithProbe(rules, hash);
    assert forall i :: 0 <= i < |rules| ==> probed[i].hosts == rules[i].hosts;
    var a, b := FirstOwner(probed, host), FirstOwner(rules, host);
    if a.Some? && b.Some? { assert !(a.value < b.value) && !(b.value < a.value); }
  }

  lemma ProbesOverRules(rules: seq<RuleValue>, hash: string, r: Request)
    requires IsProbe(r)
    ensures RouteByIngress(RulesWithProbe(rules, hash), r) == ProbeByIngress(rules, hash, r)
  {
    SameOwner(rules, hash, r.host);
    var owner := FirstOwner(rules, r.host);
    if owner.Some? { ProbesCarryTheHash(rules[owner.value].paths, hash, r); }
  }

  lemma PathProbesInvisible(paths: seq<HTTPPath>, hash: string, r: Request)
    requires !IsProbe(r)
    ensures RouteByPaths(WithProbe(paths, hash), r) == RouteByPaths(paths, r)
    ensures BestRank(PathRanks(WithProbe(paths, hash), r)) == BestRank(PathRanks(paths, r))
  {
    ClientsSeeNoTwins(paths, hash, r);
    RanksWithProbe(paths, hash, r);
  }

  /** Putting probe rules in front does not change where clients go. */
  lemma ProbesInvisible(rules: seq<RuleValue>, hash: string, r: Request)
    requires !IsProbe(r)
    ensures RouteByIngress(RulesWithProbe(rules, hash), r) == RouteByIngress(rules, r)
  {
    SameOwner(rules, hash, r.host);
    var owner := FirstOwner(rules, r.host);
    if owner.Some? { PathProbesInvisible(rules[owner.value].paths, hash, r); }
  }

  /** Neither a match nor a split of these rules is about the hash header. */
  ghost predicate HashUnmentioned(rules: seq<RuleValue>) {
    forall rule, p :: rule in rules && p in rule.paths ==>
      HASH_HEADER !in HeadersOf(p) && forall s :: s in p.splits ==> HASH_HEADER !in s.appendHeaders
  }

  /** The same backend, port and share as for a client, and the same headers but for the hash. */
  predicate ProbedAs(probed: Target, plain: Target, hash: string) {
    probed == plain.(headers := plain.headers[HASH_HEADER := hash])
  }

  ghost predicate AllProbedAs(probed: Option<seq<Target>>, plain: Option<seq<Target>>, hash: string) {
    && probed.Some? == plain.Some?
    && (probed.Some? ==>
          && |probed.value| == |plain.value|
          && forall i :: 0 <= i < |probed.value| ==> ProbedAs(probed.value[i], plain.value[i], hash))
  }

  /** If the rules do not mention the hash header, a probe goes where a client with its headers goes,
      and every backend is told the hash. */
  lemma ProbesFollowClients(rules: seq<RuleValue>, hash: string, r: Request)
    requires HashUnmentioned(rules)
    ensures AllProbedAs(ProbeByIngress(rules, hash, r), RouteByIngress(rules, r), hash)
  {
    var owner := FirstOwner(rules, r.host);
    if owner.Some? {
      var paths := rules[owner.value].paths;
      assert rules[owner.value] in rules;
      assert StrippedPaths(paths) == paths;
      var best := Select(PathRanks(paths, r));
      if best.Some? {
        assert paths[best.value] in paths;
        assert forall s :: s in paths[best.value].splits ==> HASH_HEADER !in s.appendHeaders;
      }
    }
  }
}

/** The translation keeps the meaning of an Ingress: where its HTTPRoutes send a request
    is where the Ingress says the request goes. */
module Routing {

  import opened Wrappers
  import opened GoStrings
  import opened Matching
  import opened IngressApi
  import opened GatewayApi
  import opened GatewayConfig
  import opened Resources

  // ---------- One path ----------

  /** The rule made from a path matches exactly the requests the path matches, with the same rank. */
  lemma RankAgrees(p: HTTPPath, r: Request)
    requires HasPrefix(r.path, "/")
    ensures RuleRank(RouteRule(p), r) == PathRank(p, r)
  {
    var rule := RouteRule(p);
    var m := rule.matches[0];
    if p.headers.Some? {
      var h, v := p.headers.value, ExactValues(p.headers.value);
      assert v.Keys == h.Keys;
      assert |v| == |v.Keys| && |h| == |h.Keys|;
    }
    assert MatchRank(m, r) == PathRank(p, r);
    var ranks := seq(|rule.matches|, i requires 0 <= i < |rule.matches| => MatchRank(rule.matches[i], r));
    assert ranks == [MatchRank(m, r)];
    if MatchRank(m, r).Some? {
      BestIsSelected(ranks, 0);
    } else {
      assert ranks[0].None?;
    }
  }

  /** The filters of the rule and of the forward together deliver the headers the Ingress
      promises: a rewritten host wins over the split, the split over the path. */
  lemma HeadersAgree(p: HTTPPath, s: BackendSplit, h: map<string, string>)
    ensures ApplyFilters(Forward(p, s).filters, ApplyFilters(RouteRule(p).filters, h)) == DeliveredHeaders(p, s, h)
  {
    var pre, post := RouteRule(p).filters, Forward(p, s).filters;
    assert pre != [] ==> pre[..|pre| - 1] == [];
    assert post[..|post| - 1] == [];
    var mid := ApplyFilters(pre, h);
    assert mid == h + AppendOf(p);
    assert ApplyFilters(post, mid) == mid + (s.appendHeaders + RewriteSet(p));
    assert RewriteSet(p).Keys == HostKeys(p);
  }

  /** Each forward is its split's backend with its split's share and headers. */
  lemma TargetsAgree(p: HTTPPath, r: Request)
    requires FullTraffic(p) && forall s :: s in p.splits ==> FitsInt32(s.servicePort)
    ensures RuleTargets(RouteRule(p), r) == PathTargets(p, r)
  {
    TrafficConserved(p);
    forall i | 0 <= i < |p.splits|
      ensures RuleTargets(RouteRule(p), r)[i] == PathTargets(p, r)[i]
    {
      assert p.splits[i] in p.splits;
      TargetAgrees(p, i, r);
    }
  }

  lemma TargetAgrees(p: HTTPPath, i: nat, r: Request)
    requires i < |p.splits| && FitsInt32(p.splits[i].servicePort)
    requires var fs := RouteRule(p).forwardTo; Share(fs[i].weight, WeightSum(fs)) == p.splits[i].percent as real / 100.0
    ensures ForwardTarget(RouteRule(p), RouteRule(p).forwardTo[i], r) == SplitTarget(p, p.splits[i], r)
  {
    HeadersAgree(p, p.splits[i], r.headers);
  }

  // ---------- One rule ----------

  lemma RanksAgree(paths: seq<HTTPPath>, r: Request)
    requires HasPrefix(r.path, "/")
    ensures RuleRanks(RouteRules(paths), r) == PathRanks(paths, r)
  {
    forall i | 0 <= i < |paths| ensures RuleRanks(RouteRules(paths), r)[i] == PathRanks(paths, r)[i] {
      RankAgrees(paths[i], r);
    }
  }

  /** The same index is chosen on both sides, for every list of paths. */
  lemma SelectionAgrees(paths: seq<HTTPPath>, r: Request)
    requires HasPrefix(r.path, "/")
    ensures Select(RuleRanks(RouteRules(paths), r)) == Select(PathRanks(paths, r))
  {
    RanksAgree(paths, r);
  }

  ghost predicate Deliverable(paths: seq<HTTPPath>) {
    forall p :: p in paths ==> FullTraffic(p) && forall s :: s in p.splits ==> FitsInt32(s.servicePort)
  }

  ghost predicate DeliverableRules(rules: seq<RuleValue>) {
    forall rule :: rule in rules ==> rule.hosts != [] && Deliverable(rule.paths)
  }

  /** Rules the webhook admits, with ports that fit, are deliverable once defaulted. */
  lemma AdmittedRulesDeliver(ing: IngressValue)
    requires forall rule :: rule in ing.rules ==> rule.hosts != []
    requires forall rule, p :: rule in ing.rules && p in rule.paths ==>
               AdmittedPath(p) && forall s :: s in p.splits ==> FitsInt32(s.servicePort)
    ensures DeliverableRules(Defaulted(ing).rules)
  {
    var rules := Defaulted(ing).rules;
    forall rule | rule in rules ensures rule.hosts != [] && Deliverable(rule.paths) {
      var i :| 0 <= i < |rules| && rules[i] == rule;
      assert ing.rules[i] in ing.rules;
      AdmittedPathsDeliver(ing.rules[i].paths);
    }
  }

  lemma AdmittedPathsDeliver(paths: seq<HTTPPath>)
    requires forall p :: p in paths ==> AdmittedPath(p) && forall s :: s in p.splits ==> FitsInt32(s.servicePort)
    ensures Deliverable(DefaultPaths(paths))
  {
    forall q | q in DefaultPaths(paths)
      ensures FullTraffic(q) && forall s :: s in q.splits ==> FitsInt32(s.servicePort)
    {
      var i :| 0 <= i < |paths| && DefaultPaths(paths)[i] == q;
      assert paths[i] in paths;
      DefaultingCompletes(paths[i]);
      forall s | s in q.splits ensures FitsInt32(s.servicePort) {
        var j :| 0 <= j < |q.splits| && q.splits[j] == s;
        assert paths[i].splits[j] in paths[i].splits;
      }
    }
  }

  // ---------- The whole Ingress ----------

  function MakeRoutes(cfg: Config, meta: ObjectMeta, rules: seq<RuleValue>): seq<HTTPRoute>
    requires forall rule :: rule in rules ==> rule.hosts != []
  {
    seq(|rules|, i requires 0 <= i < |rules| => assert rules[i] in rules; MakeRoute(cfg, meta, rules[i]))
  }

  /** The ranks of all paths of the rules that own the host. */
  function OwnerTable(rules: seq<RuleValue>, r: Request): seq<seq<Option<Rank>>> {
    seq(|rules|, i requires 0 <= i < |rules| => if r.host in rules[i].hosts then PathRanks(rules[i].paths, r) else [])
  }

  /** Where a request goes if the best path among all rules that own its host decides. */
  function RouteByBestPath(rules: seq<RuleValue>, r: Request): Option<seq<Target>> {
    var place := SelectAcross(OwnerTable(rules, r));
    if place.None? then None else Some(PathTargets(rules[place.value.group].paths[place.value.item], r))
  }

  lemma RouteListsHosts(cfg: Config, meta: ObjectMeta, rule: RuleValue, host: string)
    requires rule.hosts != []
    ensures var hostnames := MakeRoute(cfg, meta, rule).spec.hostnames;
            hostnames != [] && (host in hostnames <==> host in rule.hosts)
  {
    SortHostsSorts(rule.hosts);
    SameElements(rule.hosts, host);
  }

  /** Route and rule are chosen as Ingress rule and path are, whatever hosts the rules share. */
  lemma PlacesAgree(cfg: Config, meta: ObjectMeta, rules: seq<RuleValue>, r: Request)
    requires HasPrefix(r.path, "/") && forall rule :: rule in rules ==> rule.hosts != []
    ensures RoutePlace(MakeRoutes(cfg, meta, rules), r) == SelectAcross(OwnerTable(rules, r))
  {
    var routes := MakeRoutes(cfg, meta, rules);
    forall i | 0 <= i < |rules|
      ensures routes[i].spec.hostnames != [] && RankTable(routes, r, true)[i] == OwnerTable(rules, r)[i]
    {
      assert rules[i] in rules;
      RouteListsHosts(cfg, meta, rules[i], r.host);
      RanksAgree(rules[i].paths, r);
    }
    assert RankTable(routes, r, true) == OwnerTable(rules, r);
    NoLastResort(routes, r);
  }

  /** The rule and path with precedence when the rules' routes are listed in the order `o`. */
  function PathInOrder(rules: seq<RuleValue>, o: seq<nat>, r: Request): Option<Place>
    requires forall a :: 0 <= a < |o| ==> o[a] < |rules|
  {
    Restored(SelectAcross(OwnerTable(InOrder(rules, o), r)), o)
  }

  lemma RoutesInOrder(cfg: Config, meta: ObjectMeta, rules: seq<RuleValue>, o: seq<nat>)
    requires IsOrder(o, |rules|) && forall rule :: rule in rules ==> rule.hosts != []
    ensures forall rule :: rule in InOrder(rules, o) ==> rule in rules
    ensures InOrder(MakeRoutes(cfg, meta, rules), o) == MakeRoutes(cfg, meta, InOrder(rules, o))
  {
  }

  lemma PlacesAgreeInOrder(cfg: Config, meta: ObjectMeta, rules: seq<RuleValue>, o: seq<nat>, r: Request)
    requires HasPrefix(r.path, "/") && IsOrder(o, |rules|) && forall rule :: rule in rules ==> rule.hosts != []
    ensures PlaceInOrder(MakeRoutes(cfg, meta, rules), o, r) == PathInOrder(rules, o, r)
  {
    RoutesInOrder(cfg, meta, rules, o);
    PlacesAgree(cfg, meta, InOrder(rules, o), r);
  }

  /** The desired routes of an Ingress, hosts shared or not, send every request where the best path
      of the rules that own its host sends it. */
  lemma RoutingPreserved(cfg: Config, meta: ObjectMeta, rules: seq<RuleValue>, r: Request)
    requires HasPrefix(r.path, "/") && DeliverableRules(rules)
    ensures RouteByRoutes(MakeRoutes(cfg, meta, rules), r) == RouteByBestPath(rules, r)
  {
    PlacesAgree(cfg, meta, rules, r);
    var place := SelectAcross(OwnerTable(rules, r));
    if place.Some? {
      var rule, item := rules[place.value.group], place.value.item;
      assert rule in rules && rule.paths[item] in rule.paths;
      TargetsAgree(rule.paths[item], r);
    }
  }

  // ---------- Rules that share hosts ----------

  /** No two rules claim the same host. */
  ghost predicate DisjointHosts(rules: seq<RuleValue>) {
    forall i, j, h :: 0 <= i < j < |rules| && h in rules[i].hosts ==> h !in rules[j].hosts
  }

  predicate SameMatch(p: HTTPPath, q: HTTPPath) {
    EffectivePath(p) == EffectivePath(q) && HeadersOf(p) == HeadersOf(q)
  }

  ghost predicate Covered(a: seq<HTTPPath>, q: HTTPPath) {
    exists i :: 0 <= i < |a| && SameMatch(a[i], q)
  }

  /** Every path of `b` matches just as some path of `a` does. */
  ghost predicate Covers(a: seq<HTTPPath>, b: seq<HTTPPath>) {
    forall j :: 0 <= j < |b| ==> Covered(a, b[j])
  }

  /** When the routes are listed in the order `o`, the first rule that owns a host covers those of its
      other owners that are listed behind it, and those listed before it have no paths. This can be read
      off the rules and the order. */
  ghost predicate FirstOwnersWin(rules: seq<RuleValue>, o: seq<nat>)
    requires IsOrder(o, |rules|)
  {
    forall a, b, h :: 0 <= a < |o| && 0 <= b < |o| && OtherOwner(rules, o[a], o[b], h) ==>
      if a < b then Covers(rules[o[a]].paths, rules[o[b]].paths) else rules[o[b]].paths == []
  }

  /** `i` is the first owner of a host and `j` another one. */
  ghost predicate OtherOwner(rules: seq<RuleValue>, i: nat, j: nat, h: string) {
    j < |rules| && i != j && h in rules[j].hosts && FirstOwner(rules, h) == Some(i)
  }

  /** In rule order: the first owner of a host covers the later ones. */
  ghost predicate FirstOwnersCover(rules: seq<RuleValue>) {
    forall i: nat, j: nat, h :: OtherOwner(rules, i, j, h) ==> Covers(rules[i].paths, rules[j].paths)
  }

  /** In any order: the later owners of a host have no paths. */
  ghost predicate LaterOwnersSilent(rules: seq<RuleValue>) {
    forall i: nat, j: nat, h :: OtherOwner(rules, i, j, h) ==> rules[j].paths == []
  }

  lemma DisjointHostsCover(rules: seq<RuleValue>)
    requires DisjointHosts(rules)
    ensures FirstOwnersCover(rules) && LaterOwnersSilent(rules)
  {
    forall i: nat, j: nat, h ensures !OtherOwner(rules, i, j, h) {
    }
  }

  lemma SilentOwnersLose(rules: seq<RuleValue>, o: seq<nat>)
    requires LaterOwnersSilent(rules) && IsOrder(o, |rules|)
    ensures FirstOwnersWin(rules, o)
  {
  }

  lemma ReversedWinners(rules: seq<RuleValue>)
    requires FirstOwnersWin(rules, Reversed(|rules|))
    ensures LaterOwnersSilent(rules)
  {
    var n, o := |rules|, Reversed(|rules|);
    forall i: nat, j: nat, h | OtherOwner(rules, i, j, h) ensures rules[j].paths == [] {
      assert i < j && o[n - 1 - i] == i && o[n - 1 - j] == j;
      assert OtherOwner(rules, o[n - 1 - i], o[n - 1 - j], h);
    }
  }

  lemma StandingWinners(rules: seq<RuleValue>)
    ensures FirstOwnersWin(rules, Standing(|rules|)) <==> FirstOwnersCover(rules)
  {
    var o := Standing(|rules|);
    if FirstOwnersWin(rules, o) {
      forall i: nat, j: nat, h | OtherOwner(rules, i, j, h) ensures Covers(rules[i].paths, rules[j].paths) {
        assert i < j && o[i] == i && o[j] == j;
        assert OtherOwner(rules, o[i], o[j], h);
      }
    } else {
      var a, b, h :| 0 <= a < |o| && 0 <= b < |o| && OtherOwner(rules, o[a], o[b], h)
                     && !(if a < b then Covers(rules[o[a]].paths, rules[o[b]].paths) else rules[o[b]].paths == []);
      assert o[a] == a && o[b] == b && a < b;
    }
  }

  lemma SameMatchSameRank(p: HTTPPath, q: HTTPPath, r: Request)
    requires SameMatch(p, q) && HasPrefix(r.path, "/")
    ensures PathRank(p, r) == PathRank(q, r)
  {
  }

  lemma TableEntry(rules: seq<RuleValue>, r: Request, q: Place)
    requires Matches(OwnerTable(rules, r), q)
    ensures r.host in rules[q.group].hosts && q.item < |rules[q.group].paths|
    ensures PathRank(rules[q.group].paths[q.item], r) == Some(RankAt(OwnerTable(rules, r), q))
  {
    assert OwnerTable(rules, r)[q.group] == PathRanks(rules[q.group].paths, r);
  }

  lemma CoveredRank(a: seq<HTTPPath>, q: HTTPPath, r: Request)
    requires Covered(a, q) && HasPrefix(r.path, "/")
    ensures PathRank(q, r) in PathRanks(a, r)
  {
    var i :| 0 <= i < |a| && SameMatch(a[i], q);
    SameMatchSameRank(a[i], q, r);
    assert PathRanks(a, r)[i] == PathRank(q, r);
  }

  /** Whatever another owner has is had by the first owner, listed at `a`, no later and no worse. */
  lemma WinnerMatches(rules: seq<RuleValue>, o: seq<nat>, r: Request, a: nat, q: Place)
    requires IsOrder(o, |rules|) && FirstOwnersWin(rules, o) && HasPrefix(r.path, "/")
    requires Matches(OwnerTable(InOrder(rules, o), r), q) && a < |o| && FirstOwner(rules, r.host) == Some(o[a])
    ensures a <= q.group && Some(RankAt(OwnerTable(InOrder(rules, o), r), q)) in PathRanks(rules[o[a]].paths, r)
  {
    TableEntry(InOrder(rules, o), r, q);
    var b := q.group;
    if b == a {
      assert PathRanks(rules[o[a]].paths, r)[q.item] == Some(RankAt(OwnerTable(InOrder(rules, o), r), q));
    } else {
      assert OtherOwner(rules, o[a], o[b], r.host);
      CoveredRank(rules[o[a]].paths, rules[o[b]].paths[q.item], r);
    }
  }

  lemma OwnerMatches(rules: seq<RuleValue>, r: Request, rank: Rank)
    requires var owner := FirstOwner(rules, r.host); owner.Some? && Some(rank) in PathRanks(rules[owner.value].paths, r)
    ensures IngressPlace(rules, r).Some? && FirstOwner(rules, r.host) == Some(IngressPlace(rules, r).value.group)
  {
  }

  lemma PlaceIsBest(rules: seq<RuleValue>, r: Request, p: Place)
    requires IngressPlace(rules, r) == Some(p)
    ensures FirstOwner(rules, r.host) == Some(p.group) && IsBest(PathRanks(rules[p.group].paths, r), p.item)
  {
  }

  /** If the first owners win, the best match among the routes in that order is the first owner's. */
  lemma WinnersSuffice(rules: seq<RuleValue>, o: seq<nat>, r: Request)
    requires IsOrder(o, |rules|) && FirstOwnersWin(rules, o) && HasPrefix(r.path, "/")
    ensures PathInOrder(rules, o, r) == IngressPlace(rules, r)
  {
    var table, place, best := OwnerTable(InOrder(rules, o), r), IngressPlace(rules, r), PathInOrder(rules, o, r);
    var owner := FirstOwner(rules, r.host);
    if owner.Some? {
      assert owner.value in o;
      var a :| 0 <= a < |o| && o[a] == owner.value;
      forall q | Matches(table, q)
        ensures place.Some? && a <= q.group && Some(RankAt(table, q)) in PathRanks(rules[o[a]].paths, r)
      {
        WinnerMatches(rules, o, r, a, q);
        OwnerMatches(rules, r, RankAt(table, q));
      }
      if place.Some? {
        PlaceIsBest(rules, r, place.value);
        assert table[a] == PathRanks(rules[o[a]].paths, r);
        BestOfGroup(table, Place(a, place.value.item));
      }
    } else if best.Some? {
      TableEntry(InOrder(rules, o), r, SelectAcross(table).value);
    }
  }

  /** In rule order: if the first owner covers the others the best match of all is its own. */
  lemma CoverSuffices(rules: seq<RuleValue>, r: Request)
    requires FirstOwnersCover(rules) && HasPrefix(r.path, "/")
    ensures SelectAcross(OwnerTable(rules, r)) == IngressPlace(rules, r)
  {
    StandingWinners(rules);
    WinnersSuffice(rules, Standing(|rules|), r);
    StandingPlace(rules, r);
  }

  lemma StandingPlace(rules: seq<RuleValue>, r: Request)
    ensures PathInOrder(rules, Standing(|rules|), r) == SelectAcross(OwnerTable(rules, r))
  {
    StandingOrder(rules);
  }

  lemma SubsetCount<T>(a: set<T>, b: set<T>)
    requires a <= b
    ensures |a| <= |b| && (|a| == |b| ==> a == b)
  {
    assert b == a + (b - a);
  }

  /** The request that asks for just what a path matches. */
  function RequestFor(host: string, q: HTTPPath): Request {
    Request(host, EffectivePath(q), ExactValues(HeadersOf(q)))
  }

  lemma OwnRequestMatches(q: HTTPPath, host: string)
    requires WellFormedPath(q)
    ensures PathRank(q, RequestFor(host, q)) == Some(FixedRank(q))
  {
  }

  lemma OthersRankBelow(p: HTTPPath, q: HTTPPath, host: string)
    requires WellFormedPath(q) && !SameMatch(p, q) && PathRank(p, RequestFor(host, q)).Some?
    ensures Outranks(FixedRank(q), PathRank(p, RequestFor(host, q)).value)
  {
    var r, hp, hq := RequestFor(host, q), HeadersOf(p), HeadersOf(q);
    assert HasPrefix(r.path, EffectivePath(p));
    assert forall k :: k in hp ==> k in r.headers && k in hq && hp[k] == hq[k];
    SubsetCount(hp.Keys, hq.Keys);
    if |hp| == |hq| { assert hp == hq; }
  }

  /** A request for a path of another owner, listed at `b`, is not decided by the first owner, listed at
      `a`, if that one comes later or leaves the path uncovered. */
  lemma LoserShows(rules: seq<RuleValue>, o: seq<nat>, a: nat, b: nat, m: nat, host: string)
    requires IsOrder(o, |rules|) && a < |o| && b < |o| && OtherOwner(rules, o[a], o[b], host)
    requires m < |rules[o[b]].paths| && WellFormedPath(rules[o[b]].paths[m])
    requires b < a || !Covered(rules[o[a]].paths, rules[o[b]].paths[m])
    ensures var r := RequestFor(host, rules[o[b]].paths[m]);
            var best := SelectAcross(OwnerTable(InOrder(rules, o), r));
            HasPrefix(r.path, "/") && best.Some? && best.value.group != a
  {
    var listed, q := InOrder(rules, o), rules[o[b]].paths[m];
    var r := RequestFor(host, q);
    var table := OwnerTable(listed, r);
    OwnRequestMatches(q, host);
    assert table[b][m] == PathRank(q, r) && Matches(table, Place(b, m));
    SelectAcrossIsBest(table);
    var best := SelectAcross(table).value;
    TableEntry(listed, r, best);
    if best.group == a {
      var p := rules[o[a]].paths[best.item];
      if SameMatch(p, q) {
        SameMatchSameRank(p, q, r);
      } else {
        OthersRankBelow(p, q, host);
      }
    }
  }

  lemma LosingRequest(rules: seq<RuleValue>, o: seq<nat>) returns (r: Request)
    requires IsOrder(o, |rules|) && !FirstOwnersWin(rules, o)
    requires forall rule, p :: rule in rules && p in rule.paths ==> WellFormedPath(p)
    ensures HasPrefix(r.path, "/") && FirstOwner(rules, r.host).Some? && PathInOrder(rules, o, r).Some?
    ensures PathInOrder(rules, o, r).value.group != FirstOwner(rules, r.host).value
  {
    var a, b, h :| 0 <= a < |o| && 0 <= b < |o| && OtherOwner(rules, o[a], o[b], h)
                   && !(if a < b then Covers(rules[o[a]].paths, rules[o[b]].paths) else rules[o[b]].paths == []);
    var paths := rules[o[b]].paths;
    var m: nat := 0;
    if a < b { m :| 0 <= m < |paths| && !Covered(rules[o[a]].paths, paths[m]); }
    assert rules[o[b]] in rules && paths[m] in paths;
    LoserShows(rules, o, a, b, m, h);
    r := RequestFor(h, paths[m]);
  }

  /** The Ingress documentation gives the first rule that owns a host precedence, the Gateway API the
      best match among all routes that list it, and of equal ones that of the route which age and name
      put first. With its routes in the order `o` an Ingress leaves every request to the rule of the
      documentation, and to the best path in it, exactly when its first owners win in that order. */
  lemma FirstOwnerKeptExactly(cfg: Config, meta: ObjectMeta, rules: seq<RuleValue>, o: seq<nat>)
    requires IsOrder(o, |rules|) && forall rule :: rule in rules ==> rule.hosts != []
    requires forall rule, p :: rule in rules && p in rule.paths ==> WellFormedPath(p)
    ensures FirstOwnersWin(rules, o) <==>
            forall r: Request :: HasPrefix(r.path, "/") ==>
              PlaceInOrder(MakeRoutes(cfg, meta, rules), o, r) == IngressPlace(rules, r)
  {
    if FirstOwnersWin(rules, o) {
      forall r: Request | HasPrefix(r.path, "/")
        ensures PlaceInOrder(MakeRoutes(cfg, meta, rules), o, r) == IngressPlace(rules, r)
      {
        PlacesAgreeInOrder(cfg, meta, rules, o, r);
        WinnersSuffice(rules, o, r);
      }
    } else {
      var r := LosingRequest(rules, o);
      PlacesAgreeInOrder(cfg, meta, rules, o, r);
    }
  }

  /** Whatever order age and name put the routes in, every request is left to the rule of the
      documentation exactly when a rule that owns a host after another has no paths. */
  lemma FirstOwnerKeptInEveryOrder(cfg: Config, meta: ObjectMeta, rules: seq<RuleValue>)
    requires forall rule :: rule in rules ==> rule.hosts != []
    requires forall rule, p :: rule in rules && p in rule.paths ==> WellFormedPath(p)
    ensures LaterOwnersSilent(rules) <==>
            forall o, r: Request :: IsOrder(o, |rules|) && HasPrefix(r.path, "/") ==>
              PlaceInOrder(MakeRoutes(cfg, meta, rules), o, r) == IngressPlace(rules, r)
  {
    if LaterOwnersSilent(rules) {
      forall o, r: Request | IsOrder(o, |rules|) && HasPrefix(r.path, "/")
        ensures PlaceInOrder(MakeRoutes(cfg, meta, rules), o, r) == IngressPlace(rules, r)
      {
        SilentOwnersLose(rules, o);
        PlacesAgreeInOrder(cfg, meta, rules, o, r);
        WinnersSuffice(rules, o, r);
      }
    } else {
      var o := Reversed(|rules|);
      if FirstOwnersWin(rules, o) {
        ReversedWinners(rules);
      } else {
        var r := LosingRequest(rules, o);
        PlacesAgreeInOrder(cfg, meta, rules, o, r);
      }
    }
  }

  /** If the routes are as old as their rules are early, exactly when the first owner of each host
      covers the later ones. */
  lemma FirstOwnerKeptInRuleOrder(cfg: Config, meta: ObjectMeta, rules: seq<RuleValue>)
    requires forall rule :: rule in rules ==> rule.hosts != []
    requires forall rule, p :: rule in rules && p in rule.paths ==> WellFormedPath(p)
    ensures FirstOwnersCover(rules) <==>
            forall r: Request :: HasPrefix(r.path, "/") ==>
              RoutePlace(MakeRoutes(cfg, meta, rules), r) == IngressPlace(rules, r)
  {
    StandingWinners(rules);
    if FirstOwnersCover(rules) {
      forall r: Request | HasPrefix(r.path, "/")
        ensures RoutePlace(MakeRoutes(cfg, meta, rules), r) == IngressPlace(rules, r)
      {
        PlacesAgree(cfg, meta, rules, r);
        CoverSuffices(rules, r);
      }
    } else {
      var r := LosingRequest(rules, Standing(|rules|));
      PlacesAgree(cfg, meta, rules, r);
      StandingPlace(rules, r);
    }
  }

  /** For instance, a later rule with a longer path takes requests from the first owner's root. */
  lemma LaterOwnerOverrules(
      cfg: Config, meta: ObjectMeta, first: RuleValue, later: RuleValue, root: HTTPPath, longer: HTTPPath, r: Request)
    requires first.paths == [root] && later.paths == [longer] && r.host in first.hosts && r.host in later.hosts
    requires root.path == "/" && root.headers.None? && longer.headers.None?
    requires HasPrefix(longer.path, "/") && |longer.path| > 1 && r.path == longer.path
    ensures IngressPlace([first, later], r) == Some(Place(0, 0))
    ensures RoutePlace(MakeRoutes(cfg, meta, [first, later]), r) == Some(Place(1, 0))
  {
    PlacesAgree(cfg, meta, [first, later], r);
    LaterOwnerIsBest(first, later, root, longer, r);
  }

  lemma LaterOwnerIsBest(first: RuleValue, later: RuleValue, root: HTTPPath, longer: HTTPPath, r: Request)
    requires first.paths == [root] && later.paths == [longer] && r.host in first.hosts && r.host in later.hosts
    requires root.path == "/" && root.headers.None? && longer.headers.None?
    requires HasPrefix(longer.path, "/") && |longer.path| > 1 && r.path == longer.path
    ensures IngressPlace([first, later], r) == Some(Place(0, 0))
    ensures SelectAcross(OwnerTable([first, later], r)) == Some(Place(1, 0))
  {
    LoneRank(root, r);
    LoneRank(longer, r);
    var table := OwnerTable([first, later], r);
    assert table[0] == [Some(Rank(1, 0))] && table[1] == [Some(Rank(|longer.path|, 0))];
    BestAcrossIsSelected(table, Place(1, 0));
  }

  lemma LoneRank(p: HTTPPath, r: Request)
    requires HasPrefix(p.path, "/") && p.headers.None? && HasPrefix(r.path, p.path)
    ensures PathRanks([p], r) == [Some(Rank(|p.path|, 0))] && Select(PathRanks([p], r)) == Some(0)
  {
    assert PathRank(p, r) == Some(Rank(|p.path|, 0));
    BestIsSelected(PathRanks([p], r), 0);
  }

  // ---------- With the probe rules ----------

  lemma TwinsDeliver(paths: seq<HTTPPath>, hash: string)
    requires Deliverable(paths)
    ensures Deliverable(WithProbe(paths, hash))
  {
    forall p | p in WithProbe(paths, hash)
      ensures FullTraffic(p) && forall s :: s in p.splits ==> FitsInt32(s.servicePort)
    {
      var i :| 0 <= i < |WithProbe(paths, hash)| && WithProbe(paths, hash)[i] == p;
      if i < |paths| {
        assert p.splits == paths[i].splits && paths[i] in paths;
      } else {
        assert p == paths[i - |paths|];
      }
    }
  }

  lemma ProbedRulesDeliver(rules: seq<RuleValue>, hash: string)
    requires DeliverableRules(rules)
    ensures DeliverableRules(RulesWithProbe(rules, hash))
  {
    forall rule | rule in RulesWithProbe(rules, hash) ensures rule.hosts != [] && Deliverable(rule.paths) {
      var i :| 0 <= i < |rules| && rule == RuleWithProbe(rules[i], hash);
      assert rules[i] in rules;
      TwinsDeliver(rules[i].paths, hash);
    }
  }

  lemma BestOwnerRoutes(rules: seq<RuleValue>, r: Request)
    ensures var group := Select(BestRanks(OwnerTable(rules, r)));
            RouteByBestPath(rules, r) == if group.None? then None else RouteByPaths(rules[group.value].paths, r)
  {
    var group := Select(BestRanks(OwnerTable(rules, r)));
    if group.Some? { assert OwnerTable(rules, r)[group.value] == PathRanks(rules[group.value].paths, r); }
  }

  /** Clients find the best path among all owners where it was before the probe rules went in. */
  lemma ProbesInvisibleToBest(rules: seq<RuleValue>, hash: string, r: Request)
    requires !IsProbe(r)
    ensures RouteByBestPath(RulesWithProbe(rules, hash), r) == RouteByBestPath(rules, r)
  {
    var probed := RulesWithProbe(rules, hash);
    forall i | 0 <= i < |rules| ensures BestRank(OwnerTable(probed, r)[i]) == BestRank(OwnerTable(rules, r)[i]) {
      PathProbesInvisible(rules[i].paths, hash, r);
    }
    assert BestRanks(OwnerTable(probed, r)) == BestRanks(OwnerTable(rules, r));
    BestOwnerRoutes(rules, r);
    BestOwnerRoutes(probed, r);
    var group := Select(BestRanks(OwnerTable(rules, r)));
    if group.Some? { PathProbesInvisible(rules[group.value].paths, hash, r); }
  }

  /** If the first owners win, the best path of the listed rules is where the Ingress says. */
  lemma WinnersRoute(rules: seq<RuleValue>, o: seq<nat>, r: Request)
    requires IsOrder(o, |rules|) && FirstOwnersWin(rules, o) && HasPrefix(r.path, "/")
    ensures RouteByBestPath(InOrder(rules, o), r) == RouteByIngress(rules, r)
  {
    WinnersSuffice(rules, o, r);
  }

  /** End to end: the routes generated after the probe rules were inserted, in whatever order `o` age and
      name put them, send every client request where the Ingress, without the probe rules, says it goes:
      by the best path among the owners of its host, the one listed first among equals, which is the first
      owner's if first owners win in that order. */
  lemma PublishedRoutingIsIngressRouting(
      cfg: Config, meta: ObjectMeta, rules: seq<RuleValue>, hash: string, o: seq<nat>, r: Request)
    requires HasPrefix(r.path, "/") && DeliverableRules(rules) && !IsProbe(r) && IsOrder(o, |rules|)
    ensures (forall rule :: rule in RulesWithProbe(rules, hash) ==> rule.hosts != [])
    ensures RouteByRoutes(InOrder(MakeRoutes(cfg, meta, RulesWithProbe(rules, hash)), o), r) ==
              RouteByBestPath(InOrder(rules, o), r)
    ensures FirstOwnersWin(rules, o) ==> RouteByBestPath(InOrder(rules, o), r) == RouteByIngress(rules, r)
  {
    ProbedRulesDeliver(rules, hash);
    RoutesInOrder(cfg, meta, RulesWithProbe(rules, hash), o);
    assert InOrder(RulesWithProbe(rules, hash), o) == RulesWithProbe(InOrder(rules, o), hash);
    RoutingPreserved(cfg, meta, RulesWithProbe(InOrder(rules, o), hash), r);
    ProbesInvisibleToBest(InOrder(rules, o), hash, r);
    if FirstOwnersWin(rules, o) { WinnersRoute(rules, o, r); }
  }

  // ---------- First match and best match ----------

  /** The request that two paths meet on: the longer prefix and the headers of both. */
  function JointRequest(a: HTTPPath, b: HTTPPath): Request {
    Request("", if |EffectivePath(a)| >= |EffectivePath(b)| then EffectivePath(a) else EffectivePath(b),
            ExactValues(HeadersOf(a)) + ExactValues(HeadersOf(b)))
  }

  predicate WellFormedPath(p: HTTPPath) {
    HasPrefix(EffectivePath(p), "/")
  }

  function FixedRank(p: HTTPPath): Rank {
    Rank(|EffectivePath(p)|, |HeadersOf(p)|)
  }

  /** Some request matches both paths. */
  predicate Overlap(a: HTTPPath, b: HTTPPath) {
    && (HasPrefix(EffectivePath(a), EffectivePath(b)) || HasPrefix(EffectivePath(b), EffectivePath(a)))
    && forall k :: k in HeadersOf(a) && k in HeadersOf(b) ==> HeadersOf(a)[k].exact == HeadersOf(b)[k].exact
  }

  /** A later path outranks an earlier one it overlaps, and no still earlier path takes every
      request that both of them match. */
  predicate Conflict(paths: seq<HTTPPath>, i: nat, j: nat)
    requires i < j < |paths|
  {
    && Overlap(paths[i], paths[j]) && Outranks(FixedRank(paths[j]), FixedRank(paths[i]))
    && forall k :: 0 <= k < i ==> !PathMatches(paths[k], JointRequest(paths[i], paths[j]))
  }

  /** This can be read off the list of paths. */
  predicate OrderRespected(paths: seq<HTTPPath>) {
    forall i, j :: 0 <= i < j < |paths| ==> !Conflict(paths, i, j)
  }

  lemma JointIsMinimal(a: HTTPPath, b: HTTPPath, r: Request)
    requires HasPrefix(r.path, "/") && PathMatches(a, r) && PathMatches(b, r)
    ensures Overlap(a, b)
    ensures forall p :: PathMatches(p, JointRequest(a, b)) ==> PathMatches(p, r)
  {
    if |EffectivePath(a)| <= |EffectivePath(b)| {
      PrefixesOfOne(r.path, EffectivePath(a), EffectivePath(b));
    } else {
      PrefixesOfOne(r.path, EffectivePath(b), EffectivePath(a));
    }
    var joint := JointRequest(a, b);
    assert forall k :: k in joint.headers ==> k in r.headers && r.headers[k] == joint.headers[k];
    forall p | PathMatches(p, joint) ensures PathMatches(p, r) {
      if p.path != "" { PrefixTransitive(r.path, joint.path, p.path); }
    }
  }

  lemma JointMatchesBoth(a: HTTPPath, b: HTTPPath)
    requires WellFormedPath(a) && WellFormedPath(b) && Overlap(a, b)
    ensures var joint := JointRequest(a, b);
            PathMatches(a, joint) && PathMatches(b, joint) && HasPrefix(joint.path, "/")
  {
  }

  lemma DisagreementIsConflict(paths: seq<HTTPPath>, r: Request, i: nat, j: nat)
    requires HasPrefix(r.path, "/")
    requires First(PathRanks(paths, r)) == Some(i) && Select(PathRanks(paths, r)) == Some(j) && i != j
    ensures i < j < |paths| && Conflict(paths, i, j)
  {
    var ranks := PathRanks(paths, r);
    assert forall k :: 0 <= k < |paths| ==> ranks[k] == PathRank(paths[k], r);
    assert i < j;
    assert ranks[i] == Some(FixedRank(paths[i])) && ranks[j] == Some(FixedRank(paths[j]));
    JointIsMinimal(paths[i], paths[j], r);
    forall k | 0 <= k < i ensures !PathMatches(paths[k], JointRequest(paths[i], paths[j])) {
      assert ranks[k].None?;
    }
  }

  lemma OrderRespectedSuffices(paths: seq<HTTPPath>, r: Request)
    requires OrderRespected(paths) && HasPrefix(r.path, "/")
    ensures Select(PathRanks(paths, r)) == First(PathRanks(paths, r))
  {
    var first, best := First(PathRanks(paths, r)), Select(PathRanks(paths, r));
    if best.Some? && first != best {
      DisagreementIsConflict(paths, r, first.value, best.value);
    }
  }

  lemma ConflictShows(paths: seq<HTTPPath>, i: nat, j: nat)
    requires i < j < |paths| && Conflict(paths, i, j) && WellFormedPath(paths[i]) && WellFormedPath(paths[j])
    ensures var ranks := PathRanks(paths, JointRequest(paths[i], paths[j]));
            HasPrefix(JointRequest(paths[i], paths[j]).path, "/") && Select(ranks) != First(ranks)
  {
    var joint := JointRequest(paths[i], paths[j]);
    JointMatchesBoth(paths[i], paths[j]);
    var ranks := PathRanks(paths, joint);
    assert ranks[i] == Some(FixedRank(paths[i])) && ranks[j] == Some(FixedRank(paths[j]));
    forall k | 0 <= k < i ensures ranks[k].None? {
      assert ranks[k] == PathRank(paths[k], joint);
    }
    FirstLoses(ranks, i, j);
  }

  /** The Ingress documentation gives the first matching path precedence, the Gateway API the
      longest. Published routes honour the documented order for every request exactly when the
      list of paths respects the order. */
  lemma FirstMatchKeptExactly(paths: seq<HTTPPath>)
    requires forall p :: p in paths ==> WellFormedPath(p)
    ensures OrderRespected(paths) <==>
            forall r: Request :: HasPrefix(r.path, "/") ==>
              Select(RuleRanks(RouteRules(paths), r)) == First(PathRanks(paths, r))
  {
    if OrderRespected(paths) {
      forall r: Request | HasPrefix(r.path, "/")
        ensures Select(RuleRanks(RouteRules(paths), r)) == First(PathRanks(paths, r))
      {
        SelectionAgrees(paths, r);
        OrderRespectedSuffices(paths, r);
      }
    } else {
      var i, j :| 0 <= i < j < |paths| && Conflict(paths, i, j);
      ConflictShows(paths, i, j);
      SelectionAgrees(paths, JointRequest(paths[i], paths[j]));
    }
  }

  // ---------- The documented precedence ----------

  /** The rule and path of the Ingress documentation: the first rule that owns the host, and in it the
      first path that matches. */
  function DocumentedPlace(rules: seq<RuleValue>, r: Request): Option<Place> {
    var owner := FirstOwner(rules, r.host);
    if owner.None? then None
    else
      var i := First(PathRanks(rules[owner.value].paths, r));
      if i.None? then None else Some(Place(owner.value, i.value))
  }

  ghost predicate FirstOwnersOrdered(rules: seq<RuleValue>) {
    forall j, h :: 0 <= j < |rules| && h in rules[j].hosts && FirstOwner(rules, h) == Some(j) ==>
      OrderRespected(rules[j].paths)
  }

  lemma HostIgnored(paths: seq<HTTPPath>, r: Request, host: string)
    ensures PathRanks(paths, r.(host := host)) == PathRanks(paths, r)
  {
    forall i | 0 <= i < |paths| ensures PathRank(paths[i], r.(host := host)) == PathRank(paths[i], r) {
    }
  }

  lemma UnorderedWitness(rules: seq<RuleValue>) returns (r: Request)
    requires forall rule, p :: rule in rules && p in rule.paths ==> WellFormedPath(p)
    requires !FirstOwnersOrdered(rules)
    ensures HasPrefix(r.path, "/") && IngressPlace(rules, r) != DocumentedPlace(rules, r)
  {
    var j, host :| 0 <= j < |rules| && host in rules[j].hosts && FirstOwner(rules, host) == Some(j)
                   && !OrderRespected(rules[j].paths);
    var paths := rules[j].paths;
    var a, b :| 0 <= a < b < |paths| && Conflict(paths, a, b);
    assert rules[j] in rules && paths[a] in paths && paths[b] in paths;
    ConflictShows(paths, a, b);
    HostIgnored(paths, JointRequest(paths[a], paths[b]), host);
    r := JointRequest(paths[a], paths[b]).(host := host);
  }

  lemma OwnerOrdered(rules: seq<RuleValue>, r: Request)
    requires FirstOwnersOrdered(rules) && HasPrefix(r.path, "/")
    ensures IngressPlace(rules, r) == DocumentedPlace(rules, r)
  {
    var owner := FirstOwner(rules, r.host);
    if owner.Some? { OrderRespectedSuffices(rules[owner.value].paths, r); }
  }

  lemma DocumentedPlaceLoses(rules: seq<RuleValue>, o: seq<nat>) returns (r: Request)
    requires forall rule, p :: rule in rules && p in rule.paths ==> WellFormedPath(p)
    requires IsOrder(o, |rules|) && !(FirstOwnersWin(rules, o) && FirstOwnersOrdered(rules))
    ensures HasPrefix(r.path, "/") && PathInOrder(rules, o, r) != DocumentedPlace(rules, r)
  {
    if !FirstOwnersWin(rules, o) {
      r := LosingRequest(rules, o);
    } else {
      r := UnorderedWitness(rules);
      WinnersSuffice(rules, o, r);
    }
  }

  /** With its routes in the order `o` an Ingress has every request sent by the rule and the path that
      its documentation names exactly when its first owners win in that order and respect the order of
      their own paths. */
  lemma DocumentedPrecedenceKeptExactly(cfg: Config, meta: ObjectMeta, rules: seq<RuleValue>, o: seq<nat>)
    requires IsOrder(o, |rules|) && forall rule :: rule in rules ==> rule.hosts != []
    requires forall rule, p :: rule in rules && p in rule.paths ==> WellFormedPath(p)
    ensures FirstOwnersWin(rules, o) && FirstOwnersOrdered(rules) <==>
            forall r: Request :: HasPrefix(r.path, "/") ==>
              PlaceInOrder(MakeRoutes(cfg, meta, rules), o, r) == DocumentedPlace(rules, r)
  {
    if FirstOwnersWin(rules, o) && FirstOwnersOrdered(rules) {
      forall r: Request | HasPrefix(r.path, "/")
        ensures PlaceInOrder(MakeRoutes(cfg, meta, rules), o, r) == DocumentedPlace(rules, r)
      {
        PlacesAgreeInOrder(cfg, meta, rules, o, r);
        WinnersSuffice(rules, o, r);
        OwnerOrdered(rules, r);
      }
    } else {
      var r := DocumentedPlaceLoses(rules, o);
      PlacesAgreeInOrder(cfg, meta, rules, o, r);
    }
  }

  /** Whatever order age and name put the routes in: exactly when later owners have no paths and first
      owners respect the order of theirs. */
  lemma DocumentedPrecedenceKeptInEveryOrder(cfg: Config, meta: ObjectMeta, rules: seq<RuleValue>)
    requires forall rule :: rule in rules ==> rule.hosts != []
    requires forall rule, p :: rule in rules && p in rule.paths ==> WellFormedPath(p)
    ensures LaterOwnersSilent(rules) && FirstOwnersOrdered(rules) <==>
            forall o, r: Request :: IsOrder(o, |rules|) && HasPrefix(r.path, "/") ==>
              PlaceInOrder(MakeRoutes(cfg, meta, rules), o, r) == DocumentedPlace(rules, r)
  {
    if LaterOwnersSilent(rules) && FirstOwnersOrdered(rules) {
      forall o, r: Request | IsOrder(o, |rules|) && HasPrefix(r.path, "/")
        ensures PlaceInOrder(MakeRoutes(cfg, meta, rules), o, r) == DocumentedPlace(rules, r)
      {
        SilentOwnersLose(rules, o);
        PlacesAgreeInOrder(cfg, meta, rules, o, r);
        WinnersSuffice(rules, o, r);
        OwnerOrdered(rules, r);
      }
    } else {
      var o := Reversed(|rules|);
      if FirstOwnersWin(rules, o) { ReversedWinners(rules); }
      var r := DocumentedPlaceLoses(rules, o);
      PlacesAgreeInOrder(cfg, meta, rules, o, r);
    }
  }

  /** If the routes are as old as their rules are early: exactly when first owners cover later ones and
      respect the order of their own paths. */
  lemma DocumentedPrecedenceKeptInRuleOrder(cfg: Config, meta: ObjectMeta, rules: seq<RuleValue>)
    requires forall rule :: rule in rules ==> rule.hosts != []
    requires forall rule, p :: rule in rules && p in rule.paths ==> WellFormedPath(p)
    ensures FirstOwnersCover(rules) && FirstOwnersOrdered(rules) <==>
            forall r: Request :: HasPrefix(r.path, "/") ==>
              RoutePlace(MakeRoutes(cfg, meta, rules), r) == DocumentedPlace(rules, r)
  {
    StandingWinners(rules);
    if FirstOwnersCover(rules) && FirstOwnersOrdered(rules) {
      forall r: Request | HasPrefix(r.path, "/")
        ensures RoutePlace(MakeRoutes(cfg, meta, rules), r) == DocumentedPlace(rules, r)
      {
        PlacesAgree(cfg, meta, rules, r);
        CoverSuffices(rules, r);
        OwnerOrdered(rules, r);
      }
    } else {
      var r := DocumentedPlaceLoses(rules, Standing(|rules|));
      PlacesAgree(cfg, meta, rules, r);
      StandingPlace(rules, r);
    }
  }

  /** The documented order is lost whenever the root comes before a longer path. */
  lemma RootFirstIsOverruled(root: HTTPPath, longer: HTTPPath, r: Request)
    requires root.path == "/" && root.headers.None? && longer.headers.None?
    requires HasPrefix(longer.path, "/") && |longer.path| > 1 && r.path == longer.path
    ensures First(PathRanks([root, longer], r)) == Some(0)
    ensures Select(RuleRanks(RouteRules([root, longer]), r)) == Some(1)
  {
    var ranks := PathRanks([root, longer], r);
    SelectionAgrees([root, longer], r);
    assert ranks[0] == PathRank(root, r) && ranks[1] == PathRank(longer, r);
    FirstLoses(ranks, 0, 1);
  }

  /** Of two paths that match a request the longer prefix wins, however many headers the other matches
      on; then more headers win; then the first path. */
  lemma BetterOfTwo(a: HTTPPath, b: HTTPPath, r: Request)
    requires HasPrefix(r.path, "/") && PathMatches(a, r) && PathMatches(b, r)
    ensures var lengthA, lengthB := |EffectivePath(a)|, |EffectivePath(b)|;
            var headersA, headersB := |HeadersOf(a)|, |HeadersOf(b)|;
            Select(RuleRanks(RouteRules([a, b]), r)) ==
              Some(if lengthA != lengthB then (if lengthA > lengthB then 0 else 1)
                   else if headersA >= headersB then 0 else 1)
  {
    var ranks := PathRanks([a, b], r);
    SelectionAgrees([a, b], r);
    assert ranks[0] == PathRank(a, r) && ranks[1] == PathRank(b, r);
    var best := if Outranks(ranks[1].value, ranks[0].value) then 1 else 0;
    BestIsSelected(ranks, best);
  }

  // ---------- Two readings of a prefix match ----------

  /** The other reading the API gives of a prefix match: a trailing `/` in it is ignored. */
  predicate PrefixIgnoringSlash(path: string, value: string) {
    HasPrefix(path, if value != "" && value[|value| - 1] == '/' then value[..|value| - 1] else value)
  }

  /** Under that reading a published path still matches what the Ingress path matches, for every
      request, exactly when it does not end in a slash or is the root. */
  lemma TrailingSlashReading(p: HTTPPath)
    requires WellFormedPath(p)
    ensures (forall path :: HasPrefix(path, "/") ==>
               (PrefixIgnoringSlash(path, EffectivePath(p)) <==> p.path == "" || HasPrefix(path, p.path)))
            <==> (EffectivePath(p) == "/" || EffectivePath(p)[|EffectivePath(p)| - 1] != '/')
  {
    var v := EffectivePath(p);
    if v != "/" && v[|v| - 1] == '/' {
      var shorter := v[..|v| - 1];
      assert HasPrefix(shorter, "/") && PrefixIgnoringSlash(shorter, v) && !HasPrefix(shorter, p.path);
    }
  }
}

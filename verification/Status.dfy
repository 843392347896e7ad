/** The Ingress status: its conditions as knative's condition manager keeps them, the marks the
    reconciler makes, and when a route counts as ready. */
module Status {

  import opened Wrappers
  import opened GatewayApi

  // ---------- Readiness of a route ----------

  const ADMITTED := "Admitted"

  /** The first `Admitted` condition exists and is true. */
  ghost predicate Admitted(gw: RouteGatewayStatus) {
    exists i :: 0 <= i < |gw.conditions| && FirstAdmitted(gw.conditions, i) && gw.conditions[i].status == "True"
  }

  ghost predicate FirstAdmitted(conditions: seq<Condition>, i: nat)
    requires i < |conditions|
  {
    conditions[i].kind == ADMITTED && forall j :: 0 <= j < i ==> conditions[j].kind != ADMITTED
  }

  /** The status list is there (it may be empty) and every gateway in it admitted the route. */
  ghost predicate RouteReady(r: HTTPRoute) {
    r.gateways.Some? && forall gw :: gw in r.gateways.value ==> Admitted(gw)
  }

  /** A ready route was admitted by some gateway exactly when its status list is not empty; the API
      says that an empty list means admitted by none, and the code calls such a route ready. */
  lemma ReadyIsAdmittedBySomeone(r: HTTPRoute)
    requires RouteReady(r)
    ensures (exists gw :: gw in r.gateways.value && Admitted(gw)) <==> r.gateways.value != []
  {
    if r.gateways.value != [] {
      assert r.gateways.value[0] in r.gateways.value;
    }
  }

  /** Conditions in front of the first `Admitted` one do not matter, and none behind it does. */
  lemma FirstAdmittedDecides(gw: RouteGatewayStatus, c: Condition)
    ensures Admitted(gw.(conditions := [c] + gw.conditions)) <==>
              if c.kind == "Admitted" then c.status == "True" else Admitted(gw)
    ensures gw.conditions == [] ==> !Admitted(gw)
  {
    var more := [c] + gw.conditions;
    assert more[0] == c && forall i :: 0 < i < |more| ==> more[i] == gw.conditions[i - 1];
    if c.kind == ADMITTED {
      assert FirstAdmitted(more, 0);
    } else {
      if i :| 0 <= i < |gw.conditions| && FirstAdmitted(gw.conditions, i) && gw.conditions[i].status == "True" {
        assert FirstAdmitted(more, i + 1);
      }
      if i :| 0 <= i < |more| && FirstAdmitted(more, i) && more[i].status == "True" {
        assert FirstAdmitted(gw.conditions, i - 1) by {
          assert forall j :: 0 <= j < i - 1 ==> gw.conditions[j] == more[j + 1];
        }
      }
    }
  }

  /** Each gateway has a say: one that has not admitted the route makes it unready. */
  lemma EveryGatewayCounts(r: HTTPRoute, gw: RouteGatewayStatus, rest: seq<RouteGatewayStatus>)
    ensures RouteReady(r.(gateways := Some([gw] + rest))) <==> Admitted(gw) && RouteReady(r.(gateways := Some(rest)))
    ensures RouteReady(r.(gateways := Some([]))) && !RouteReady(r.(gateways := None))
  {
    assert forall g :: g in [gw] + rest <==> g == gw || g in rest;
  }

  method IsGatewayAdmitted(gw: RouteGatewayStatus) returns (admitted: bool)
    ensures admitted <==> Admitted(gw)
  {
    for n := 0 to |gw.conditions|
      invariant forall j :: 0 <= j < n ==> gw.conditions[j].kind != ADMITTED
    {
      if gw.conditions[n].kind == ADMITTED {
        assert FirstAdmitted(gw.conditions, n);
        return gw.conditions[n].status == "True";
      }
    }
    return false;
  }

  method IsHTTPRouteReady(r: HTTPRoute) returns (ready: bool)
    ensures ready <==> RouteReady(r)
  {
    if r.gateways.None? { return false; }
    for n := 0 to |r.gateways.value|
      invariant forall j :: 0 <= j < n ==> Admitted(r.gateways.value[j])
    {
      var admitted := IsGatewayAdmitted(r.gateways.value[n]);
      if !admitted { return false; }
    }
    return true;
  }

  // ---------- Conditions ----------

  datatype Truth = True | False | Unknown

  datatype ConditionType = Ready | NetworkConfigured | LoadBalancerReady

  /** The happy condition and its two dependents; `None` where one was never set. */
  datatype Conditions = Conditions(ready: Option<Truth>, network: Option<Truth>, loadBalancer: Option<Truth>) {
    function Set(t: ConditionType, s: Truth): Conditions {
      match t
      case Ready => this.(ready := Some(s))
      case NetworkConfigured => this.(network := Some(s))
      case LoadBalancerReady => this.(loadBalancer := Some(s))
    }

    predicate SomeDependent(s: Option<Truth>) {
      network == s || loadBalancer == s
    }

    /** False dependents trump unknown ones, which trump missing ones. */
    function UnhappyDependent(): Option<Truth> {
      if SomeDependent(Some(False)) then Some(False)
      else if SomeDependent(Some(Unknown)) || SomeDependent(None) then Some(Unknown)
      else None
    }

    function MarkTrue(t: ConditionType): Conditions {
      var c := Set(t, True);
      var unhappy := c.UnhappyDependent();
      if unhappy.Some? then c.Set(Ready, unhappy.value)
      else if t != Ready then c.Set(Ready, True)
      else c
    }

    function MarkUnknown(t: ConditionType): Conditions {
      var c := Set(t, Unknown);
      if c.SomeDependent(Some(False)) then (if c.ready != Some(False) then c.Set(Ready, False) else c)
      else if t != Ready then c.Set(Ready, Unknown)
      else c
    }

    /** Missing dependents start out true only under a happy condition that is true. */
    function Initialize(): Conditions {
      var happy := if ready.None? then Unknown else ready.value;
      var start := Some(if happy == True then True else Unknown);
      Conditions(Some(happy),
                 if network.None? then start else network,
                 if loadBalancer.None? then start else loadBalancer)
    }
  }

  // ---------- Marks ----------

  datatype Mark =
    | MarkNetworkConfigured
    | MarkIngressNotReady(reason: string, message: string)
    | MarkLoadBalancerReady(publicDomain: string, privateDomain: string)
    | MarkLoadBalancerNotReady

  /** The conditions and the internal domains of the two load balancers. */
  datatype IngressStatus = IngressStatus(conditions: Conditions, publicLb: Option<string>, privateLb: Option<string>)

  function Apply(s: IngressStatus, m: Mark): IngressStatus {
    match m
    case MarkNetworkConfigured => s.(conditions := s.conditions.MarkTrue(NetworkConfigured))
    case MarkIngressNotReady(_, _) => s.(conditions := s.conditions.MarkUnknown(Ready))
    case MarkLoadBalancerReady(pub, priv) =>
      IngressStatus(s.conditions.MarkTrue(LoadBalancerReady), Some(pub), Some(priv))
    case MarkLoadBalancerNotReady => s.(conditions := s.conditions.MarkUnknown(LoadBalancerReady))
  }

  function ApplyAll(s: IngressStatus, marks: seq<Mark>): IngressStatus {
    if marks == [] then s else Apply(ApplyAll(s, marks[..|marks| - 1]), marks[|marks| - 1])
  }

  lemma ApplyAllAppend(s: IngressStatus, marks: seq<Mark>, m: Mark)
    ensures ApplyAll(s, marks + [m]) == Apply(ApplyAll(s, marks), m)
  {
    assert (marks + [m])[..|marks|] == marks;
  }

  const NOT_READY := MarkIngressNotReady("HTTPRouteNotReady", "Waiting for HTTPRoute becomes Ready.")
  const FAILED := MarkIngressNotReady("ReconcileIngressFailed", "Ingress reconciliation failed")

  function RuleMark(ready: bool): Mark {
    if ready then MarkNetworkConfigured else NOT_READY
  }

  function RuleMarks(readies: seq<bool>): seq<Mark> {
    seq(|readies|, i requires 0 <= i < |readies| => RuleMark(readies[i]))
  }

  /** The two marks a completed pass can end with. */
  predicate LoadBalancerMark(m: Mark, probed: bool) {
    if probed then m.MarkLoadBalancerReady? else m == MarkLoadBalancerNotReady
  }

  // ---------- What the marks add up to ----------

  /** An unready rule leaves the network condition as it was; one ready rule sets it for good. */
  lemma {:induction false} NetworkAfterRules(s: IngressStatus, readies: seq<bool>)
    requires s.conditions.ready.Some? && s.conditions.network.Some? && s.conditions.loadBalancer.Some?
    ensures var c := ApplyAll(s, RuleMarks(readies)).conditions;
            && c.network == (if true in readies then Some(True) else s.conditions.network)
            && c.loadBalancer == s.conditions.loadBalancer && c.ready.Some?
            && ApplyAll(s, RuleMarks(readies)).publicLb == s.publicLb
            && ApplyAll(s, RuleMarks(readies)).privateLb == s.privateLb
  {
    if readies != [] {
      var front := readies[..|readies| - 1];
      NetworkAfterRules(s, front);
      assert RuleMarks(readies) == RuleMarks(front) + [RuleMark(readies[|readies| - 1])];
      ApplyAllAppend(s, RuleMarks(front), RuleMark(readies[|readies| - 1]));
      assert readies == front + [readies[|readies| - 1]];
    }
  }

  /** The Ingress ends a completed pass ready exactly when the probe answered yes and the network
      condition is set: by some rule of this pass, or already when the pass began. */
  lemma ReadyExactly(s: IngressStatus, readies: seq<bool>, probed: bool, lb: Mark)
    requires LoadBalancerMark(lb, probed)
    ensures var start := s.(conditions := s.conditions.Initialize());
            ApplyAll(start, RuleMarks(readies) + [lb]).conditions.ready == Some(True) <==>
              probed && (true in readies || start.conditions.network == Some(True))
  {
    var start := s.(conditions := s.conditions.Initialize());
    NetworkAfterRules(start, readies);
    ApplyAllAppend(start, RuleMarks(readies), lb);
    LoadBalancerDecides(ApplyAll(start, RuleMarks(readies)), probed, lb);
  }

  lemma LoadBalancerDecides(s: IngressStatus, probed: bool, lb: Mark)
    requires LoadBalancerMark(lb, probed) && s.conditions.network.Some?
    ensures Apply(s, lb).conditions.ready == Some(True) <==> probed && s.conditions.network == Some(True)
  {
    match s.conditions.network.value
    case True =>
    case False => assert s.conditions.Set(LoadBalancerReady, True).SomeDependent(Some(False));
    case Unknown => assert s.conditions.Set(LoadBalancerReady, True).SomeDependent(Some(Unknown));
  }

  /** So "ready means that every rule's route was admitted" holds, for a probe that answers yes,
      exactly when all routes were admitted, or none was and the network was not configured before. */
  lemma ReadyMeansAdmittedExactly(s: IngressStatus, readies: seq<bool>, lb: Mark)
    requires LoadBalancerMark(lb, true)
    ensures var start := s.(conditions := s.conditions.Initialize());
            (ApplyAll(start, RuleMarks(readies) + [lb]).conditions.ready == Some(True) ==> false !in readies)
            <==> (false !in readies || (true !in readies && start.conditions.network != Some(True)))
  {
    ReadyExactly(s, readies, true, lb);
  }

  /** What a dependent condition counts as when a pass begins: unset, it follows a ready Ingress. */
  function AtStart(dependent: Option<Truth>, ready: Option<Truth>): Truth {
    if dependent.Some? then dependent.value else if ready == Some(True) then True else Unknown
  }

  /** The whole status after the marks of the rules and `last`, from the status before the pass: whether
      the network is configured, what the load balancers are, and what Ready makes of the two. */
  lemma StatusExactly(s: IngressStatus, readies: seq<bool>, last: Mark)
    requires last == FAILED || last == MarkLoadBalancerNotReady || last.MarkLoadBalancerReady?
    ensures var t := ApplyAll(s.(conditions := s.conditions.Initialize()), RuleMarks(readies) + [last]);
            var network := if true in readies then True else AtStart(s.conditions.network, s.conditions.ready);
            var balancer := match last
                            case MarkLoadBalancerReady(_, _) => True
                            case MarkLoadBalancerNotReady => Unknown
                            case _ => AtStart(s.conditions.loadBalancer, s.conditions.ready);
            && t.conditions.network == Some(network) && t.conditions.loadBalancer == Some(balancer)
            && (t.conditions.ready == Some(False) <==> network == False || balancer == False)
            && (t.conditions.ready == Some(True) <==> network == True && last.MarkLoadBalancerReady?)
            && t.conditions.ready.Some?
            && t.publicLb == (if last.MarkLoadBalancerReady? then Some(last.publicDomain) else s.publicLb)
            && t.privateLb == (if last.MarkLoadBalancerReady? then Some(last.privateDomain) else s.privateLb)
  {
    var start := s.(conditions := s.conditions.Initialize());
    NetworkAfterRules(start, readies);
    ApplyAllAppend(start, RuleMarks(readies), last);
    LastMarkDecides(ApplyAll(start, RuleMarks(readies)), last);
  }

  lemma LastMarkDecides(s: IngressStatus, last: Mark)
    requires last == FAILED || last == MarkLoadBalancerNotReady || last.MarkLoadBalancerReady?
    requires s.conditions.network.Some? && s.conditions.loadBalancer.Some?
    ensures var c, network := Apply(s, last).conditions, s.conditions.network.value;
            var balancer := match last
                            case MarkLoadBalancerReady(_, _) => True
                            case MarkLoadBalancerNotReady => Unknown
                            case _ => s.conditions.loadBalancer.value;
            && c.network == Some(network) && c.loadBalancer == Some(balancer)
            && c.ready == Some(if network == False || balancer == False then False
                               else if network == True && last.MarkLoadBalancerReady? then True
                               else Unknown)
  {
  }

  /** A failed pass never ends ready, whatever it marked before. */
  lemma FailedNeverReady(s: IngressStatus, marks: seq<Mark>)
    ensures ApplyAll(s, marks + [FAILED]).conditions.ready in {Some(Unknown), Some(False)}
    ensures var c := ApplyAll(s, marks).conditions;
            && ApplyAll(s, marks + [FAILED]).conditions.network == c.network
            && ApplyAll(s, marks + [FAILED]).conditions.loadBalancer == c.loadBalancer
  {
    ApplyAllAppend(s, marks, FAILED);
  }
}

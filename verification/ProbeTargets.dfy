/** The targets the prober is told to check, and their agreement with the published routes. */
module ProbeTargets {

  import opened Wrappers
  import opened GoStrings
  import opened IngressApi
  import opened GatewayApi
  import opened GatewayConfig
  import opened Resources
  import opened Routing
  import opened Protocol

  const HTTP_PORT_EXTERNAL := "8080"
  const HTTP_PORT_INTERNAL := "8081"
  const HTTPS_PORT_EXTERNAL := "8443"

  datatype URL = URL(scheme: string, host: string, path: string)

  datatype ProbeTarget = ProbeTarget(podIPs: set<string>, podPort: string, urls: seq<URL>)

  datatype ListError = EndpointsNotFound(namespace: string, name: string) | NoGatewayPods

  /** The addresses of each subset of an Endpoints object. */
  type Subsets = seq<seq<string>>

  ghost function AllAddresses(subsets: Subsets): set<string> {
    set i, j | 0 <= i < |subsets| && 0 <= j < |subsets[i]| :: subsets[i][j]
  }

  predicate ServedOverTLS(rule: RuleValue, httpOption: string) {
    rule.visibility == ExternalIP && httpOption == HTTP_REDIRECTED
  }

  /** One URL per host, in order; external rules are probed where clients enter, over TLS when
      plain HTTP is redirected, and every other rule on the internal port. */
  ghost predicate Probes(t: ProbeTarget, rule: RuleValue, httpOption: string, ips: set<string>) {
    && t.podIPs == ips
    && t.podPort == (if rule.visibility != ExternalIP then HTTP_PORT_INTERNAL
                     else if httpOption == HTTP_REDIRECTED then HTTPS_PORT_EXTERNAL
                     else HTTP_PORT_EXTERNAL)
    && |t.urls| == |rule.hosts|
    && forall i :: 0 <= i < |t.urls| ==>
         t.urls[i] == URL(if ServedOverTLS(rule, httpOption) then "https" else "http", rule.hosts[i], "/")
  }

  /** In the literals of the source: clients' ports for external rules, over TLS with redirection, and
      the internal port for all others. */
  lemma ProbedPorts(t: ProbeTarget, rule: RuleValue, httpOption: string, ips: set<string>)
    requires Probes(t, rule, httpOption, ips)
    ensures rule.visibility != ExternalIP ==> t.podPort == "8081" && forall u :: u in t.urls ==> u.scheme == "http"
    ensures rule.visibility == ExternalIP && httpOption != "Redirected" ==>
              t.podPort == "8080" && forall u :: u in t.urls ==> u.scheme == "http"
    ensures rule.visibility == ExternalIP && httpOption == "Redirected" ==>
              t.podPort == "8443" && forall u :: u in t.urls ==> u.scheme == "https"
  {
  }

  method DomainsToURL(domains: seq<string>, scheme: string) returns (urls: seq<URL>)
    ensures |urls| == |domains| && forall i :: 0 <= i < |urls| ==> urls[i] == URL(scheme, domains[i], "/")
  {
    urls := [];
    for n := 0 to |domains|
      invariant |urls| == n && forall i :: 0 <= i < n ==> urls[i] == URL(scheme, domains[i], "/")
    {
      urls := urls + [URL(scheme, domains[n], "/")];
    }
  }

  method GetIngressUrls(ing: IngressValue, gatewayIps: seq<string>) returns (targets: seq<ProbeTarget>)
    ensures |targets| == |ing.rules|
    ensures forall i :: 0 <= i < |targets| ==>
              Probes(targets[i], ing.rules[i], ing.httpOption, set ip | ip in gatewayIps)
  {
    var ips := set ip | ip in gatewayIps;
    targets := [];
    for n := 0 to |ing.rules|
      invariant |targets| == n
      invariant forall i :: 0 <= i < n ==> Probes(targets[i], ing.rules[i], ing.httpOption, ips)
    {
      var rule := ing.rules[n];
      var port, scheme := HTTP_PORT_INTERNAL, "http";
      if rule.visibility == ExternalIP {
        if ing.httpOption == HTTP_REDIRECTED {
          port, scheme := HTTPS_PORT_EXTERNAL, "https";
        } else {
          port := HTTP_PORT_EXTERNAL;
        }
      }
      var urls := DomainsToURL(rule.hosts, scheme);
      targets := targets + [ProbeTarget(ips, port, urls)];
    }
  }

  method ReadyIPs(subsets: Subsets) returns (ips: seq<string>)
    ensures (set ip | ip in ips) == AllAddresses(subsets)
  {
    ips := [];
    for i := 0 to |subsets|
      invariant forall ip :: ip in ips <==> ip in AllAddresses(subsets[..i])
    {
      ghost var was := ips;
      for j := 0 to |subsets[i]|
        invariant forall ip :: ip in ips <==> ip in was || ip in subsets[i][..j]
      {
        ips := ips + [subsets[i][j]];
      }
      assert subsets[i][..|subsets[i]|] == subsets[i];
      AddressesGrow(subsets, i);
    }
    assert subsets[..|subsets|] == subsets;
  }

  lemma AddressesGrow(subsets: Subsets, i: nat)
    requires i < |subsets|
    ensures forall ip :: ip in AllAddresses(subsets[..i + 1]) <==> ip in AllAddresses(subsets[..i]) || ip in subsets[i]
  {
    forall ip | ip in AllAddresses(subsets[..i]) || ip in subsets[i] ensures ip in AllAddresses(subsets[..i + 1]) {
      if ip in AllAddresses(subsets[..i]) {
        var a, b :| 0 <= a < i && 0 <= b < |subsets[..i][a]| && subsets[..i][a][b] == ip;
        assert subsets[..i + 1][a][b] == ip;
      } else {
        var b :| 0 <= b < |subsets[i]| && subsets[i][b] == ip;
        assert subsets[..i + 1][i][b] == ip;
      }
    }
    forall ip | ip in AllAddresses(subsets[..i + 1]) ensures ip in AllAddresses(subsets[..i]) || ip in subsets[i] {
      var a, b :| 0 <= a < i + 1 && 0 <= b < |subsets[..i + 1][a]| && subsets[..i + 1][a][b] == ip;
      if a < i { assert subsets[..i][a][b] == ip; }
    }
  }

  /** `ListProbeTargets`: the pods are those of the cluster-local gateway service. With its endpoints
      found, it fails exactly when they hold no address. */
  method ListProbeTargets(cfg: Config, endpoints: map<(string, string), Subsets>, ing: IngressValue)
    returns (r: Result<seq<ProbeTarget>, ListError>)
    ensures var key := SplitMetaNamespaceKey(LookupService(cfg, ClusterLocal));
            var (ns, name) := if key.SplitOk? then (key.namespace, key.name) else ("", "");
            && ((ns, name) !in endpoints ==> r == Err(EndpointsNotFound(ns, name)))
            && ((ns, name) in endpoints ==>
                  var ips := AllAddresses(endpoints[(ns, name)]);
                  && (r.Err? <==> ips == {}) && (r.Err? ==> r.error == NoGatewayPods)
                  && (r.Ok? ==> |r.value| == |ing.rules|
                                && forall i :: 0 <= i < |r.value| ==>
                                     Probes(r.value[i], ing.rules[i], ing.httpOption, ips)))
  {
    var key := SplitMetaNamespaceKey(LookupService(cfg, ClusterLocal));
    var ns, name := "", "";
    if key.SplitOk? {
      ns, name := key.namespace, key.name;
    }
    if (ns, name) !in endpoints { return Err(EndpointsNotFound(ns, name)); }
    var readyIPs := ReadyIPs(endpoints[(ns, name)]);
    if readyIPs == [] { return Err(NoGatewayPods); }
    assert readyIPs[0] in AllAddresses(endpoints[(ns, name)]);
    var targets := GetIngressUrls(ing, readyIPs);
    r := Ok(targets);
  }

  function URLHosts(urls: seq<URL>): seq<string> {
    seq(|urls|, i requires 0 <= i < |urls| => urls[i].host)
  }

  /** What is probed is what is published: target by target, the hosts in the URLs are the hostnames
      of the rule's route, each as often, though the routes list them sorted and carry probe rules. */
  lemma ProbedIsPublished(cfg: Config, ing: IngressValue, hash: string, ips: set<string>, targets: seq<ProbeTarget>)
    requires HostsGiven(ing.rules) && |targets| == |ing.rules|
    requires forall i :: 0 <= i < |targets| ==> Probes(targets[i], Defaulted(ing).rules[i], ing.httpOption, ips)
    ensures var wants := Wants(cfg, ing, hash);
            && |wants| == |targets|
            && forall i :: 0 <= i < |targets| ==>
                 multiset(URLHosts(targets[i].urls)) == multiset(wants[i].spec.hostnames)
                 && wants[i].name in URLHosts(targets[i].urls)
  {
    var wants := Wants(cfg, ing, hash);
    forall i | 0 <= i < |targets|
      ensures multiset(URLHosts(targets[i].urls)) == multiset(wants[i].spec.hostnames)
              && wants[i].name in URLHosts(targets[i].urls)
    {
      var hosts := ing.rules[i].hosts;
      assert ing.rules[i] in ing.rules && Probes(targets[i], Defaulted(ing).rules[i], ing.httpOption, ips);
      assert URLHosts(targets[i].urls) == hosts;
      SortHostsSorts(hosts);
      LeastHostIsLeast(hosts);
    }
  }
}

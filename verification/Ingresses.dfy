/** The Ingress object on the heap: its rules share host lists and HTTP blocks with every copy of
    a rule that is made from them. */
module Ingresses {

  import opened Wrappers
  import opened GoStrings
  import opened IngressApi
  import opened Resources
  import opened Status

  ghost function HostListsOf(rules: seq<IngressRule>): set<array<string>> {
    set i | 0 <= i < |rules| :: rules[i].hosts
  }

  ghost function BlocksOf(rules: seq<IngressRule>): set<HTTPIngressRuleValue> {
    set i | 0 <= i < |rules| :: rules[i].http
  }

  function Values(rules: seq<IngressRule>): seq<RuleValue>
    reads HostListsOf(rules), BlocksOf(rules)
  {
    seq(|rules|, i requires 0 <= i < |rules| reads HostListsOf(rules), BlocksOf(rules) => rules[i].Value())
  }

  class Ingress {
    const meta: ObjectMeta
    const httpOption: string
    var rules: seq<IngressRule>
    var status: IngressStatus

    /** As decoded: every rule has its own host list and its own HTTP block. */
    ghost predicate Valid()
      reads this`rules
    {
      forall i, j :: 0 <= i < j < |rules| ==> rules[i].hosts != rules[j].hosts && rules[i].http != rules[j].http
    }

    ghost function HostLists(): set<array<string>>
      reads this`rules
    {
      HostListsOf(rules)
    }

    ghost function Blocks(): set<HTTPIngressRuleValue>
      reads this`rules
    {
      BlocksOf(rules)
    }

    function Value(): IngressValue
      reads this`rules, HostLists(), Blocks()
    {
      IngressValue(meta, Values(rules), httpOption)
    }

    /** The value depends on the rules, their host lists and their blocks, and on nothing else. */
    twostate lemma ValueKept()
      requires unchanged(this`rules)
      requires forall a :: a in old(HostLists()) ==> unchanged(a)
      requires forall b :: b in old(Blocks()) ==> unchanged(b)
      ensures Value() == old(Value())
    {
      assert forall i :: 0 <= i < |rules| ==> rules[i].hosts in old(HostLists()) && rules[i].http in old(Blocks());
    }

    constructor (meta: ObjectMeta, httpOption: string, rules: seq<IngressRule>, status: IngressStatus)
      ensures this.meta == meta && this.httpOption == httpOption && this.rules == rules && this.status == status
    {
      this.meta, this.httpOption, this.rules, this.status := meta, httpOption, rules, status;
    }

    /** `SetDefaults`, in place. */
    method SetDefaults()
      requires Valid()
      modifies this`rules, Blocks()
      ensures Valid() && HostLists() == old(HostLists()) && Blocks() == old(Blocks())
      ensures Value() == Defaulted(old(Value())) && OnlyDefaulted(old(Value()), Value())
    {
      ghost var was := Value();
      ghost var rules0 := rules;
      for n := 0 to |rules|
        invariant |rules| == |rules0| && n <= |rules|
        invariant forall i :: 0 <= i < |rules| ==> rules[i].hosts == rules0[i].hosts && rules[i].http == rules0[i].http
        invariant forall i :: 0 <= i < n ==> rules[i].Value() == DefaultRule(was.rules[i])
        invariant forall i :: n <= i < |rules| ==> rules[i].Value() == was.rules[i]
      {
        if rules[n].visibility == Unset {
          rules := rules[n := rules[n].(visibility := ExternalIP)];
        }
        var paths := DefaultAll(rules[n].http.paths);
        rules[n].http.paths := paths;
      }
      DefaultingChangesNothingElse(was);
      assert Value() == Defaulted(was);
    }

    /** `DeepCopy`: equal, and made of new objects only. */
    method DeepCopy() returns (c: Ingress)
      requires Valid()
      ensures fresh(c) && fresh(c.HostLists()) && fresh(c.Blocks())
      ensures c.Valid() && c.Value() == Value() && c.status == status
    {
      var copied: seq<IngressRule> := [];
      for n := 0 to |rules|
        invariant |copied| == n
        invariant forall i :: 0 <= i < n ==>
                    fresh(copied[i].hosts) && fresh(copied[i].http) && copied[i].Value() == rules[i].Value()
        invariant forall i, j :: 0 <= i < j < n ==>
                    copied[i].hosts != copied[j].hosts && copied[i].http != copied[j].http
      {
        var from := rules[n].hosts;
        var hosts := new string[from.Length](i requires 0 <= i < from.Length reads from => from[i]);
        assert hosts[..] == from[..];
        var http := new HTTPIngressRuleValue(rules[n].http.paths);
        copied := copied + [IngressRule(hosts, rules[n].visibility, http)];
      }
      c := new Ingress(meta, httpOption, copied, status);
      assert c.Value().rules == Value().rules;
    }

    /** `InsertProbe`: hashes the Ingress, then puts probe twins in front of every block's paths. */
    method InsertProbe(hash: IngressValue -> Result<string, string>) returns (r: Result<string, string>)
      requires Valid()
      modifies Blocks()
      ensures r == hash(old(Value()))
      ensures r.Ok? ==> Value() == old(Value()).(rules := RulesWithProbe(old(Value()).rules, r.value))
      ensures r.Err? ==> Value() == old(Value())
    {
      r := hash(Value());
      if r.Err? { return; }
      ghost var was := Value();
      for n := 0 to |rules|
        invariant forall i :: 0 <= i < n ==> rules[i].Value() == RuleWithProbe(was.rules[i], r.value)
        invariant forall i :: n <= i < |rules| ==> rules[i].Value() == was.rules[i]
      {
        var twins := MakeTwins(rules[n].http.paths, r.value);
        rules[n].http.paths := twins + rules[n].http.paths;
      }
    }
  }

  method DefaultAll(paths: seq<HTTPPath>) returns (r: seq<HTTPPath>)
    ensures r == DefaultPaths(paths)
  {
    r := paths;
    for n := 0 to |paths|
      invariant |r| == |paths|
      invariant forall i :: 0 <= i < n ==> r[i] == DefaultPath(paths[i])
      invariant forall i :: n <= i < |r| ==> r[i] == paths[i]
    {
      if |r[n].splits| == 1 && r[n].splits[0].percent == 0 {
        r := r[n := r[n].(splits := [r[n].splits[0].(percent := 100)])];
      }
    }
  }

  method MakeTwins(paths: seq<HTTPPath>, hash: string) returns (twins: seq<HTTPPath>)
    ensures twins == Twins(paths, hash)
  {
    twins := [];
    for n := 0 to |paths|
      invariant twins == Twins(paths, hash)[..n]
    {
      var elt := paths[n];
      if elt.appendHeaders.None? { elt := elt.(appendHeaders := Some(map[])); }
      if elt.headers.None? { elt := elt.(headers := Some(map[])); }
      elt := elt.(headers := Some(elt.headers.value[HASH_HEADER := HeaderMatch(HASH_HEADER_VALUE)]),
                  appendHeaders := Some(elt.appendHeaders.value[HASH_HEADER := hash]));
      twins := twins + [elt];
    }
  }
}

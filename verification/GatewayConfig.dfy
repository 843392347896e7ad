/** The gateway configuration: its validator, its look-ups, and the deep copy that keeps a
    loaded configuration apart from the stored one. */
module GatewayConfig {

  import opened Wrappers
  import opened GoStrings
  import opened IngressApi

  const VISIBILITY_CONFIG_KEY := "visibility"

  datatype Entry = Entry(gatewayClass: string, gateway: string, service: string)

  function SystemKey(name: string): string {
    "istio-system" + "/" + name
  }

  const DEFAULTS: map<Visibility, Entry> := map[
    ExternalIP := Entry("istio", SystemKey("knative-gateway"), SystemKey("istio-ingressgateway")),
    ClusterLocal := Entry("istio", SystemKey("knative-local-gateway"), SystemKey("knative-local-gateway"))]

  /** The contents of a Gateway object: `None` for a nil map, and in it `None` for a nil entry. */
  type Config = Option<map<Visibility, Option<Entry>>>

  datatype ConfigError =
    | YamlError(message: string)
    | VisibilityMissing(visibility: Visibility)
    | VisibilityUnrecognized(visibility: Visibility)
    | ServiceKeyMalformed(visibility: Visibility)
    | GatewayKeyMalformed(visibility: Visibility)
    | ClassMissing(visibility: Visibility)

  function EntryOf(cfg: Config, visibility: Visibility): Option<Entry> {
    if cfg.Some? && visibility in cfg.value then cfg.value[visibility] else None
  }

  function LookupGateway(cfg: Config, visibility: Visibility): string {
    var e := EntryOf(cfg, visibility);
    if e.None? then "" else e.value.gateway
  }

  function LookupService(cfg: Config, visibility: Visibility): string {
    var e := EntryOf(cfg, visibility);
    if e.None? then "" else e.value.service
  }

  function LookupGatewayClass(cfg: Config, visibility: Visibility): string {
    var e := EntryOf(cfg, visibility);
    if e.None? then "" else e.value.gatewayClass
  }

  function ConfigOf(entry: map<Visibility, Entry>): map<Visibility, Option<Entry>> {
    map k | k in entry :: Some(entry[k])
  }

  predicate WellFormedEntry(e: Entry) {
    && e.gatewayClass != ""
    && SplitMetaNamespaceKey(e.gateway).SplitOk?
    && SplitMetaNamespaceKey(e.service).SplitOk?
  }

  /** Exactly the two known visibilities, each with a class and well-formed keys. */
  predicate Accepted(entry: map<Visibility, Entry>) {
    entry.Keys == {ExternalIP, ClusterLocal} && forall k :: k in entry ==> WellFormedEntry(entry[k])
  }

  /** The complaint the loop body makes about one entry. */
  function EntryFault(key: Visibility, e: Entry): (fault: Option<ConfigError>)
    ensures fault.None? <==> key in {ClusterLocal, ExternalIP} && WellFormedEntry(e)
  {
    if key != ClusterLocal && key != ExternalIP then Some(VisibilityUnrecognized(key))
    else if SplitMetaNamespaceKey(e.service).SplitErr? then Some(ServiceKeyMalformed(key))
    else if SplitMetaNamespaceKey(e.gateway).SplitErr? then Some(GatewayKeyMalformed(key))
    else if e.gatewayClass == "" then Some(ClassMissing(key))
    else None
  }

  /** What each complaint about an entry says, the checks being made in this order. */
  lemma FaultsMean(key: Visibility, e: Entry)
    ensures var known := key == ExternalIP || key == ClusterLocal;
            var service := SplitMetaNamespaceKey(e.service).SplitOk?;
            var gateway := SplitMetaNamespaceKey(e.gateway).SplitOk?;
            && (EntryFault(key, e) == Some(VisibilityUnrecognized(key)) <==> !known)
            && (EntryFault(key, e) == Some(ServiceKeyMalformed(key)) <==> known && !service)
            && (EntryFault(key, e) == Some(GatewayKeyMalformed(key)) <==> known && service && !gateway)
            && (EntryFault(key, e) == Some(ClassMissing(key)) <==> known && service && gateway && e.gatewayClass == "")
            && (EntryFault(key, e) == None <==> known && service && gateway && e.gatewayClass != "")
  {
  }

  /** A refusal names what is wrong: a known visibility that is missing (the local one is looked
      for first), or else a fault of some entry. */
  ghost predicate ComplaintJustified(entry: map<Visibility, Entry>, e: ConfigError) {
    if ClusterLocal !in entry then e == VisibilityMissing(ClusterLocal)
    else if ExternalIP !in entry then e == VisibilityMissing(ExternalIP)
    else exists k :: k in entry && EntryFault(k, entry[k]) == Some(e)
  }

  /** A configuration with `e` under a visibility. */
  ghost function Overwritten(cfg: Config, visibility: Visibility, e: Entry): Config {
    Some((if cfg.None? then map[] else cfg.value)[visibility := Some(e)])
  }

  class GatewayEntry {
    var gatewayClass: string
    var gateway: string
    var service: string

    constructor (e: Entry)
      ensures Value() == e
    {
      gatewayClass, gateway, service := e.gatewayClass, e.gateway, e.service;
    }

    function Value(): Entry
      reads this
    {
      Entry(gatewayClass, gateway, service)
    }
  }

  ghost function ValueOf(e: GatewayEntry?): Option<Entry>
    reads e
  {
    if e == null then None else Some(e.Value())
  }

  ghost function ValuesOf(entries: map<Visibility, GatewayEntry?>): map<Visibility, Option<Entry>>
    reads set k | k in entries && entries[k] != null :: entries[k]
  {
    map k | k in entries :: ValueOf(entries[k])
  }

  lemma SameContents(a: map<Visibility, GatewayEntry?>, b: map<Visibility, GatewayEntry?>)
    requires a.Keys == b.Keys && forall k :: k in a ==> ValueOf(a[k]) == ValueOf(b[k])
    ensures ValuesOf(a) == ValuesOf(b)
  {
  }

  lemma ContentsAre(made: map<Visibility, GatewayEntry>, entry: map<Visibility, Entry>)
    requires made.Keys == entry.Keys && forall k :: k in made ==> made[k].Value() == entry[k]
    ensures ValuesOf(made) == ConfigOf(entry)
  {
  }

  lemma OneDiffers(
      a: map<Visibility, GatewayEntry?>, was: map<Visibility, Option<Entry>>, visibility: Visibility, e: Entry)
    requires a.Keys == was.Keys + {visibility} && ValueOf(a[visibility]) == Some(e)
    requires forall k :: k in was && k != visibility ==> ValueOf(a[k]) == was[k]
    ensures ValuesOf(a) == was[visibility := Some(e)]
  {
  }

  class Gateway {
    var gateways: Option<map<Visibility, GatewayEntry?>>

    ghost function Entries(): set<GatewayEntry>
      reads this
    {
      if gateways.None? then {}
      else set k | k in gateways.value && gateways.value[k] != null :: gateways.value[k]
    }

    /** Every object this configuration is made of. */
    ghost function Footprint(): set<object>
      reads this
    {
      {this} + Entries()
    }

    ghost function Contents(): Config
      reads Footprint()
    {
      if gateways.None? then None
      else Some(ValuesOf(gateways.value))
    }

    /** No two visibilities share an entry. */
    ghost predicate Unshared()
      reads this
    {
      gateways.Some? ==>
        forall k, k' :: k in gateways.value && k' in gateways.value && k != k' && gateways.value[k] != null ==>
          gateways.value[k] != gateways.value[k']
    }

    constructor ()
      ensures gateways.None?
    {
      gateways := None;
    }

    /** The three look-ups on the object read what its contents say. */
    method Lookup(visibility: Visibility) returns (gateway: string, gatewayClass: string, service: string)
      ensures gateway == LookupGateway(Contents(), visibility)
      ensures gatewayClass == LookupGatewayClass(Contents(), visibility)
      ensures service == LookupService(Contents(), visibility)
      ensures if gateways.Some? && visibility in gateways.value && gateways.value[visibility] != null then
                var e := gateways.value[visibility];
                gateway == e.gateway && gatewayClass == e.gatewayClass && service == e.service
              else gateway == gatewayClass == service == ""
    {
      gateway, gatewayClass, service := "", "", "";
      if gateways.Some? && visibility in gateways.value && gateways.value[visibility] != null {
        var e := gateways.value[visibility];
        gateway, gatewayClass, service := e.gateway, e.gatewayClass, e.service;
      }
    }

    /** `(*Gateway).DeepCopyInto`. */
    method DeepCopyInto(out: Gateway)
      requires out != this && out !in Footprint()
      modifies out
      ensures Contents() == old(Contents()) && Footprint() == old(Footprint())
      ensures out.Contents() == Contents() && out.Unshared() && fresh(out.Entries())
    {
      out.gateways := gateways;
      if gateways.Some? {
        var copied: map<Visibility, GatewayEntry?> := map[];
        var rest := gateways.value.Keys;
        while rest != {}
          invariant rest <= gateways.value.Keys && copied.Keys == gateways.value.Keys - rest
          invariant forall k :: k in copied && copied[k] != null ==> fresh(copied[k])
          invariant forall k :: k in copied ==> ValueOf(copied[k]) == ValueOf(gateways.value[k])
          invariant forall k, k' :: k in copied && k' in copied && k != k' && copied[k] != null ==>
                      copied[k] != copied[k']
          invariant unchanged(this) && forall e :: e in old(Entries()) ==> unchanged(e)
        {
          var key :| key in rest;
          var val := gateways.value[key];
          if val == null {
            copied := copied[key := null];
          } else {
            var outVal := new GatewayEntry(val.Value());
            copied := copied[key := outVal];
          }
          rest := rest - {key};
        }
        out.gateways := Some(copied);
        SameContents(out.gateways.value, gateways.value);
      }
    }

    /** `(*Gateway).DeepCopy`: the copy is equal and shares no object with its source. */
    static method DeepCopy(src: Gateway?) returns (out: Gateway?)
      ensures src == null <==> out == null
      ensures src != null ==>
                && src.Contents() == old(src.Contents()) && src.Footprint() == old(src.Footprint())
                && out.Contents() == src.Contents() && out.Unshared()
                && fresh(out.Footprint()) && out.Footprint() !! src.Footprint()
    {
      if src == null { return null; }
      out := new Gateway();
      src.DeepCopyInto(out);
    }

    /** Whatever is written through other objects, this configuration keeps its contents. */
    twostate lemma ApartIsUntouched(new written: set<object>)
      requires written !! old(Footprint())
      requires forall o :: o in old(Footprint()) && o !in written ==> unchanged(o)
      ensures Contents() == old(Contents()) && Footprint() == old(Footprint())
    {
    }

    /** Puts `e` under a visibility: through the entry that is there, or else as a new one in the map. */
    method Overwrite(visibility: Visibility, e: Entry)
      requires Unshared()
      modifies Footprint()
      ensures Contents() == Overwritten(old(Contents()), visibility, e)
      ensures fresh(Footprint() - old(Footprint()))
    {
      var held := if gateways.None? then map[] else gateways.value;
      ghost var was := ValuesOf(held);
      if visibility in held && held[visibility] != null {
        var entry := held[visibility];
        entry.gatewayClass, entry.gateway, entry.service := e.gatewayClass, e.gateway, e.service;
      } else {
        var added := new GatewayEntry(e);
        gateways := Some(held[visibility := added]);
      }
      OneDiffers(gateways.value, was, visibility, e);
    }

    /** `Load` hands out a deep copy. Its holder may write through the copy's entries and its map:
        the copy changes and the stored configuration does not. */
    static method LoadAndOverwrite(stored: Gateway, visibility: Visibility, e: Entry) returns (copy: Gateway)
      ensures fresh(copy.Footprint())
      ensures copy.Contents() == Overwritten(stored.Contents(), visibility, e)
      ensures stored.Contents() == old(stored.Contents()) && stored.Footprint() == old(stored.Footprint())
    {
      var loaded := DeepCopy(stored);
      copy := loaded;
      ghost var apart := copy.Footprint();
      copy.Overwrite(visibility, e);
      stored.ApartIsUntouched(apart);
    }
  }

  /** `NewGatewayFromConfigMap`. YAML parsing is a parameter; the entries are visited in any order. */
  method NewGatewayFromConfigMap(data: map<string, string>, unmarshal: string -> Result<map<Visibility, Entry>, string>)
    returns (r: Result<Gateway, ConfigError>)
    ensures r.Ok? ==> fresh(r.value.Footprint()) && r.value.Unshared()
    ensures VISIBILITY_CONFIG_KEY !in data ==> r.Ok? && r.value.Contents() == Some(ConfigOf(DEFAULTS))
    ensures VISIBILITY_CONFIG_KEY in data ==>
              match unmarshal(data[VISIBILITY_CONFIG_KEY])
              case Err(e) => r == Err(YamlError(e))
              case Ok(entry) =>
                && (r.Ok? <==> Accepted(entry))
                && (r.Ok? ==> r.value.Contents() == Some(ConfigOf(entry)))
                && (r.Err? ==> ComplaintJustified(entry, r.error))
  {
    if VISIBILITY_CONFIG_KEY !in data {
      var d := DefaultGateway();
      return Ok(d);
    }
    var parsed := unmarshal(data[VISIBILITY_CONFIG_KEY]);
    if parsed.Err? { return Err(YamlError(parsed.error)); }
    var entry := parsed.value;
    if ClusterLocal !in entry { return Err(VisibilityMissing(ClusterLocal)); }
    if ExternalIP !in entry { return Err(VisibilityMissing(ExternalIP)); }
    r := BuildGateway(entry);
  }

  /** A Gateway that holds these entry objects. */
  method NewGateway(made: map<Visibility, GatewayEntry>, ghost entry: map<Visibility, Entry>) returns (g: Gateway)
    requires made.Keys == entry.Keys && forall k :: k in made ==> made[k].Value() == entry[k]
    requires forall k, k' :: k in made && k' in made && k != k' ==> made[k] != made[k']
    ensures fresh(g) && g.Unshared() && g.Entries() == made.Values && g.Contents() == Some(ConfigOf(entry))
  {
    g := new Gateway();
    g.gateways := Some(made);
    ContentsAre(made, entry);
  }

  method DefaultGateway() returns (g: Gateway)
    ensures fresh(g.Footprint()) && g.Unshared() && g.Contents() == Some(ConfigOf(DEFAULTS))
  {
    var external := new GatewayEntry(DEFAULTS[ExternalIP]);
    var local := new GatewayEntry(DEFAULTS[ClusterLocal]);
    g := NewGateway(map[ExternalIP := external, ClusterLocal := local], DEFAULTS);
  }

  ghost predicate Faultless(entry: map<Visibility, Entry>, keys: set<Visibility>) {
    forall k :: k in keys && k in entry ==> EntryFault(k, entry[k]).None?
  }

  lemma FaultlessGrows(entry: map<Visibility, Entry>, keys: set<Visibility>, key: Visibility)
    requires Faultless(entry, keys) && key in entry && EntryFault(key, entry[key]).None?
    ensures Faultless(entry, keys + {key})
  {
  }

  lemma AcceptedIsFaultless(entry: map<Visibility, Entry>)
    requires ClusterLocal in entry && ExternalIP in entry
    ensures Accepted(entry) <==> Faultless(entry, entry.Keys)
  {
    if Faultless(entry, entry.Keys) {
      assert forall k :: k in entry ==> k in {ClusterLocal, ExternalIP};
      assert entry.Keys == {ExternalIP, ClusterLocal};
    }
  }

  /** The loop over the parsed entries, in any order. */
  method CopyEntries(entry: map<Visibility, Entry>) returns (r: Result<map<Visibility, GatewayEntry>, ConfigError>)
    ensures r.Ok? <==> Faultless(entry, entry.Keys)
    ensures r.Ok? ==>
              && r.value.Keys == entry.Keys
              && (forall k :: k in r.value ==> fresh(r.value[k]) && r.value[k].Value() == entry[k])
              && (forall k, k' :: k in r.value && k' in r.value && k != k' ==> r.value[k] != r.value[k'])
    ensures r.Err? ==> exists k :: k in entry && EntryFault(k, entry[k]) == Some(r.error)
  {
    var made: map<Visibility, GatewayEntry> := map[];
    var rest := entry.Keys;
    while rest != {}
      invariant rest <= entry.Keys && made.Keys == entry.Keys - rest
      invariant Faultless(entry, made.Keys)
      invariant forall k :: k in made ==> fresh(made[k]) && made[k].Value() == entry[k]
      invariant forall k, k' :: k in made && k' in made && k != k' ==> made[k] != made[k']
    {
      var key :| key in rest;
      var fault := EntryFault(key, entry[key]);
      if fault.Some? { return Err(fault.value); }
      FaultlessGrows(entry, made.Keys, key);
      var value := new GatewayEntry(entry[key]);
      made, rest := made[key := value], rest - {key};
    }
    r := Ok(made);
  }

  method BuildGateway(entry: map<Visibility, Entry>) returns (r: Result<Gateway, ConfigError>)
    requires ClusterLocal in entry && ExternalIP in entry
    ensures r.Ok? <==> Accepted(entry)
    ensures r.Ok? ==> fresh(r.value.Footprint()) && r.value.Unshared() && r.value.Contents() == Some(ConfigOf(entry))
    ensures r.Err? ==> exists k :: k in entry && EntryFault(k, entry[k]) == Some(r.error)
  {
    AcceptedIsFaultless(entry);
    var made := CopyEntries(entry);
    if made.Err? { return Err(made.error); }
    var c := NewGateway(made.value, entry);
    r := Ok(c);
  }

  lemma {:induction false} DefaultsAccepted()
    ensures Accepted(DEFAULTS)
  {
    assert DEFAULTS.Keys == {ExternalIP, ClusterLocal};
    forall v | v in DEFAULTS ensures WellFormedEntry(DEFAULTS[v]) {
      DefaultEntryWellFormed(DEFAULTS[v]);
    }
  }

  /** What the look-ups answer without a configuration: the public gateway and its service for external
      traffic, the local gateway twice for local traffic, and nothing for any other visibility. */
  lemma DefaultLookups(v: Visibility)
    ensures var cfg := Some(ConfigOf(DEFAULTS));
            && (v == ExternalIP ==>
                  && LookupGateway(cfg, v) == "istio-system" + "/" + "knative-gateway"
                  && LookupService(cfg, v) == "istio-system" + "/" + "istio-ingressgateway")
            && (v == ClusterLocal ==>
                  && LookupGateway(cfg, v) == "istio-system" + "/" + "knative-local-gateway"
                  && LookupService(cfg, v) == "istio-system" + "/" + "knative-local-gateway")
            && (if v == ExternalIP || v == ClusterLocal then LookupGatewayClass(cfg, v) == "istio"
                else LookupGateway(cfg, v) == LookupService(cfg, v) == LookupGatewayClass(cfg, v) == "")
  {
  }

  lemma DefaultEntryWellFormed(e: Entry)
    requires e in DEFAULTS.Values
    ensures WellFormedEntry(e)
  {
    if e == DEFAULTS[ExternalIP] {
      SystemKeySplits("knative-gateway");
      SystemKeySplits("istio-ingressgateway");
    } else {
      SystemKeySplits("knative-local-gateway");
    }
  }

  lemma SystemKeySplits(name: string)
    requires '/' !in name
    ensures SplitMetaNamespaceKey(SystemKey(name)).SplitOk?
  {
    JoinPair("istio-system", name);
  }

  /** The split errors that the reconciler, the lister and the translation throw away are nil for
      every visibility, known or not, exactly when every configured key is well formed; and that
      holds for whatever the constructor accepts. */
  lemma DiscardedErrorsAreNil(entry: map<Visibility, Entry>)
    ensures var cfg := Some(ConfigOf(entry));
            (forall v :: && SplitMetaNamespaceKey(LookupGateway(cfg, v)).SplitOk?
                         && SplitMetaNamespaceKey(LookupService(cfg, v)).SplitOk?)
            <==> (forall k :: k in entry ==>
                    && SplitMetaNamespaceKey(entry[k].gateway).SplitOk?
                    && SplitMetaNamespaceKey(entry[k].service).SplitOk?)
    ensures Accepted(entry) ==> forall k :: k in entry ==>
              && SplitMetaNamespaceKey(entry[k].gateway).SplitOk?
              && SplitMetaNamespaceKey(entry[k].service).SplitOk?
  {
    var cfg := Some(ConfigOf(entry));
    forall v | v !in entry
      ensures SplitMetaNamespaceKey(LookupGateway(cfg, v)).SplitOk?
      ensures SplitMetaNamespaceKey(LookupService(cfg, v)).SplitOk?
    {
      assert Split("") == [""];
    }
    assert forall k :: k in entry ==>
      LookupGateway(cfg, k) == entry[k].gateway && LookupService(cfg, k) == entry[k].service;
  }
}

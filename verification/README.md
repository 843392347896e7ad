# Verification of the Knative Gateway API controller

The controller watches Knative Ingresses and keeps one Gateway API HTTPRoute per Ingress rule.
This project models its hand-written reconciler and proves properties of the model with Dafny 4.11:
`dafny verify dfyconfig.toml` checks everything.

## What is modelled

| file | part of the controller |
|---|---|
| `GoStrings.dfy` | Go string order, in-place `sort.Strings`, prefixes, `namespace/name` keys |
| `Matching.dfy` | requests, match precedence |
| `IngressApi.dfy` | Ingress values, defaulting, probe rules, and where an Ingress says a request goes |
| `GatewayApi.dfy` | HTTPRoute values and where the Gateway API says a request goes |
| `Resources.dfy` | the translation of a rule into a route (`resources/httproute.go`, `helpers.go`) |
| `Routing.dfy` | agreement of the two meanings |
| `GatewayConfig.dfy` | the configuration validator, look-ups, deep copy on the heap |
| `Status.dfy` | readiness of a route, the condition manager, the marks of a pass |
| `Protocol.dfy` | one pass as a function of values: API server with resource versions, informer index, faults |
| `Convergence.dfy` | what passes achieve |
| `Interleaving.dfy` | every interleaving of reads, writes, late watch events, status writes and faults |
| `Passes.dfy` | a whole `ReconcileKind`: published routing and reported status |
| `Ingresses.dfy`, `Reconciler.dfy` | the code on the heap: shared host lists, in-place changes, copies |
| `ProbeTargets.dfy` | `ListProbeTargets` |
| `Informers.dfy` | the shared informer factory |

The imperative files follow the source's form: methods with loops that change arrays, objects and
maps, each tied by its postcondition to a function of values, about which the lemmas are proved.

Conventions. Dafny's `==` on sequences and maps plays the part of `equality.Semantic.DeepEqual`, which
identifies nil and empty collections; where the code itself tells nil from empty, `Option` does. The
server stores objects as written, hands out increasing resource versions, and refuses a create of an
existing key and an update of a missing key or an older version. The YAML parser, the Ingress hash, the
prober's answer, the cluster domain and the fault met by each call are parameters. Lists of routes
stand in the order of age and name that decides among equal matches.

## Results that differ from the documentation

- `LongestHost` returns the lexicographically least host, not the longest (helpers.go:58-65).
- The Ingress documentation gives the first matching path precedence, the published routes the longest.
  `FirstMatchKeptExactly` says for which path lists the two agree on every request. It gives the first
  rule that owns a host precedence, the routes the best match among all of them. `FirstOwnerKeptExactly`
  and `DocumentedPrecedenceKeptExactly` say for which rules and which order of the routes these agree, and
  their `InEveryOrder` forms for which rules whatever the order; `LaterOwnerOverrules` is a case where
  they do not.
- One of the API's texts ignores a trailing slash in a prefix. `TrailingSlashReading` says for which paths
  that reading agrees with the Ingress.
- A ready Ingress need not have all routes admitted. `IngressReadyExactly` and `ReadyMeansAllReadyExactly`
  give the exact conditions; `ReadyWithUnadmittedRoute` is a concrete case. An empty status list counts as
  ready, though the API says it means admitted by no gateway (`ReadyIsAdmittedBySomeone`).
- An error-free pass need not converge. `ConvergesExactly` gives the condition, which fails for rules that
  share a least host but not their meaning (`CompatibleExactly`) and for a cache that shows a past,
  accidentally desired state (`FalselyFreshHides`), as after an edit that is taken back (`EditLeavesLie`).
- The split errors thrown away are nil exactly when all configured keys are well formed
  (`DiscardedErrorsAreNil`), as the validator ensures.

## Model

| member | source | states |
|---|---|---|
| Interleaving.AlwaysSafe | pkg/reconciler/ingress/reconcile_resources.go:43-81 | for rules that agree where they share a name: in every run, from any server, any lagging cache, a lying one included, and any past states still on the way to it, at every moment, each route's content is its initial or its desired one, owners are kept, nothing unwanted appears, nothing desired is undone; and writes made plus undesired names is constant, so the controller writes at most once per name |
| Interleaving.OnceDesired | pkg/reconciler/ingress/reconcile_resources.go:65-80 | between any two moments of any such run the server only evolves towards the desired routes |
| Interleaving.StepSafe | pkg/reconciler/ingress/reconcile_resources.go:43-81 | every single step (stale read, late commit, lost call or answer, watch event, status write) keeps the invariant and the write balance |
| Interleaving.CommitEffect | pkg/reconciler/ingress/reconcile_resources.go:49-77 | each write the server accepts makes exactly one more name desired, however old the read it was decided from |
| Interleaving.EveryCleanPassConverges | pkg/reconciler/ingress/ingress.go:95-114 | at every moment of every run an error-free pass, however stale its cache and whatever is pending, leaves every rule's route desired if and only if its cache tells no lie; it tells none if the run began honestly, with no falsely desired state in the cache or on the way to it |
| Interleaving.EveryLivePassConverges | pkg/reconciler/ingress/reconcile_resources.go:43-84 | from an honest start a pass that reads the live cache for each rule, with any events between its reads and writes, leaves every rule's route desired if it meets no error |
| Interleaving.HonestExactly | pkg/reconciler/ingress/reconcile_resources.go:43-43 | the cache never tells a lie in any run if and only if the start is honest |
| Interleaving.CaughtUpPassFinishes | pkg/reconciler/ingress/ingress.go:95-114 | at every moment of every run one faultless pass over a cache that caught up completes and leaves every route desired, for distinct names |
| Interleaving.CanFinish | pkg/reconciler/ingress/reconcile_resources.go:43-84 | from every reachable state, a lying cache included, some run of watch events, reads and writes ends with every rule's route desired |
| Interleaving.PassIsRun | pkg/reconciler/ingress/ingress.go:95-114 | a reconcile pass with any faults is one of those runs |
| Convergence.ConvergesExactly | pkg/reconciler/ingress/ingress.go:95-114 | an error-free pass leaves every rule's desired route on the server if and only if rules sharing a name agree and the cache was not falsely fresh |
| Convergence.FieldsConvergeExactly | pkg/reconciler/ingress/reconcile_resources.go:65-77 | field by field: an error-free pass leaves the spec, the labels and the annotations every rule wants under its name if and only if rules sharing a name want the same three and no cached route has the wanted three while the stored one has not |
| Convergence.FieldsQuietExactly | pkg/reconciler/ingress/reconcile_resources.go:65-84 | a pass succeeds without writing if and only if every name is cached with the spec, the labels and the annotations its rule wants |
| Convergence.FalselyFreshHides | pkg/reconciler/ingress/reconcile_resources.go:65-67 | a cached past state equal to the desired one makes the pass succeed and write nothing, whatever the server holds |
| Convergence.EditLeavesLie | pkg/reconciler/ingress/reconcile_resources.go:43-81 | such a cache arises: when an Ingress with distinct names is edited and edited back before the watch events of the first pass's writes are seen, the second pass ends error-free without a call and leaves every edited rule as it was edited |
| Convergence.QuietExactly | pkg/reconciler/ingress/reconcile_resources.go:65-84 | a pass succeeds without writing if and only if the cache shows every desired route, and then makes no call |
| Convergence.SecondPassQuietExactly | pkg/reconciler/ingress/reconcile_resources.go:43-84 | with a caught-up cache the pass after an error-free one is quiet if and only if the rules were compatible and the first cache told no lie |
| Convergence.StepEffect | pkg/reconciler/ingress/reconcile_resources.go:37-85 | one rule touches its own key only; an update keeps name, namespace, owners and status; the result is the stored or the cached route |
| Convergence.StepFields | pkg/reconciler/ingress/reconcile_resources.go:49-77 | a changed route has the wanted spec, labels and annotations and a newer version, and the name, namespace, owners and status it had; an added one is the wanted one |
| Convergence.PassKeeps | pkg/reconciler/ingress/reconcile_resources.go:69-77 | any pass leaves the owners and the status list of every route it finds |
| Convergence.RunFrame | pkg/reconciler/ingress/ingress.go:95-101 | a pass, failing or not, changes no other key and loses none |
| Convergence.FrozenIsLive | pkg/reconciler/ingress/reconcile_resources.go:43-43 | with distinct names a pass over one frozen cache that tells no lie, however stale, does what reading the live server before each rule does, up to the rule where it fails |
| Convergence.FailureLeavesPrefix | pkg/reconciler/ingress/ingress.go:95-106 | for distinct names, any sound cache and any failure, refusals brought about by a stale cache included: of the rules before the failing one exactly those are desired for which the cache told no lie, the rules behind it are untouched, and so is the failing one unless only its answer was lost |
| Convergence.RetryReachesTheSame | pkg/reconciler/ingress/ingress.go:64-75 | for distinct names, after any pass over any sound cache a faultless one over a caught-up cache completes and leaves every route desired; if the first cache told no lie, it leaves the server, versions included, that settling the rules on the first server leaves, and if that cache had caught up, the one of one uninterrupted pass |
| Convergence.SettleResumes | pkg/reconciler/ingress/ingress.go:95-101 | settling all rules again after a prefix was settled ends in the same server |
| Passes.StoredRoutingIsIngressRouting | pkg/reconciler/ingress/ingress.go:77-114 | after an error-free pass over disjoint hosts, with a cache that told no lie, the stored routes, in any order, send every client request to the backends, with the shares and headers, that the defaulted Ingress promises, and so the Ingress as given, but for a lone backend without a share, which gets all traffic |
| Passes.StoredProbesTellTheHash | pkg/reconciler/ingress/ingress.go:84-116 | in the same circumstances every probe goes to the backends of the best path that matches it apart from the hash header, each told the hash of the very value the prober is asked about unless its split sets that header; if the Ingress does not mention the header that is where a client would go |
| Passes.StoredMetadata | pkg/reconciler/ingress/resources/httproute.go:42-90 | in the same circumstances the route of each rule is stored under its least host with its hosts, gateway reference, visibility label, the Ingress's other labels and annotations; owner and status are those found, or the Ingress and none |
| Passes.IngressReadyExactly | pkg/reconciler/ingress/ingress.go:95-140 | after any pass over a sound world Ready is true if and only if the pass completed, the probe answered yes, and a rule's route was ready (the cached one if it shows the desired content, else the stored one) or the network was configured before |
| Passes.ReadyMeansAllReadyExactly | pkg/reconciler/ingress/ingress.go:108-134 | for disjoint hosts and a caught-up cache Ready is decided by the stored routes, and implies that all are ready if and only if all are, or none is and the network was not configured before |
| Passes.ReadyWithUnadmittedRoute | pkg/reconciler/ingress/ingress.go:108-112 | for every Ingress of two rules with disjoint hosts there is a cluster holding both routes, one not admitted, over which a pass reports it ready |
| Passes.TraceOfPass | pkg/reconciler/ingress/ingress.go:64-140 | one mark per completed rule in order, telling the readiness of the route the rule is judged by, then one load-balancer mark following the probe, or on failure the not-ready mark and no load-balancer mark |
| Passes.ErrorOfPass | pkg/reconciler/ingress/ingress.go:77-118 | a hash error stops the pass before any change, a rule's error at that rule, and the prober is asked after all rules only; the error returned is that one |
| Passes.ReportedByPass | pkg/reconciler/ingress/ingress.go:64-140 | any pass over a sound world: network and load-balancer conditions, Ready and both domains are told from the status before, the judged routes of completed rules, the error and the probe |
| Passes.CreatedNotReady | pkg/reconciler/ingress/ingress.go:142-145 | a rule whose name is not cached, and whose route the pass so creates, is marked not ready |
| Passes.FreshIngressNeverReady | pkg/reconciler/ingress/ingress.go:95-140 | a pass over a cache with none of the names never ends ready unless the network was configured before |
| Convergence.MarksJudge | pkg/reconciler/ingress/ingress.go:95-112 | the i-th mark of any pass tells whether the cached route, if it shows the desired content, or else the route stored in the end is ready |
| Passes.DisjointHostsDistinctWants | pkg/reconciler/ingress/resources/httproute.go:47-59 | rules with disjoint non-empty hosts want routes of distinct names, one per rule, in the Ingress's namespace |
| Passes.CompatibleExactly | pkg/reconciler/ingress/resources/helpers.go:62-65 | the wanted routes agree wherever they share a name if and only if any two rules with the same least host have the same hosts up to order, visibility label, gateway and translated paths |
| Passes.SharedLeastHostConflicts | pkg/reconciler/ingress/resources/helpers.go:62-65 | rules with the same least host but different hosts want different routes under one name |
| Passes.LoadBalancersNameServices | pkg/reconciler/ingress/ingress.go:121-134 | the reported public domain is name.namespace.svc and the cluster domain for the configured external service, the private one for the local service |
| Routing.RoutingPreserved | pkg/reconciler/ingress/resources/httproute.go:63-158 | the desired routes of any rules, hosts shared or not, send every request whose path starts with a slash where the best path of all rules that own its host sends it |
| Routing.FirstOwnerKeptExactly | vendor/knative.dev/networking/pkg/apis/networking/v1alpha1/ingress_types.go:169-169 | with the routes in a given order of age and name, every request is left to the first rule that owns its host, as documented, if and only if for each host the first owner has a path with the same prefix and headers for each path of the owners listed behind it, and those listed before it have no paths |
| Routing.FirstOwnerKeptInEveryOrder | vendor/sigs.k8s.io/gateway-api/apis/v1alpha1/httproute_types.go:190-197 | that holds in every order of age and name if and only if rules that own a host after another have no paths |
| Routing.FirstOwnerKeptInRuleOrder | vendor/knative.dev/networking/pkg/apis/networking/v1alpha1/ingress_types.go:169-169 | if routes are as old as their rules are early it holds if and only if first owners cover later ones |
| Routing.LaterOwnerOverrules | vendor/sigs.k8s.io/gateway-api/apis/v1alpha1/httproute_types.go:176-197 | a later rule with a longer path takes requests from the root path of the first rule that owns the host |
| Routing.DocumentedPrecedenceKeptExactly | vendor/knative.dev/networking/pkg/apis/networking/v1alpha1/ingress_types.go:169-191 | with the routes in a given order the documented rule and the documented path in it are chosen for every request if and only if first owners win in that order and order their own paths as FirstMatchKeptExactly asks |
| Routing.DocumentedPrecedenceKeptInEveryOrder | vendor/knative.dev/networking/pkg/apis/networking/v1alpha1/ingress_types.go:169-191 | and in every order if and only if later owners have no paths and first owners order theirs |
| GatewayApi.OrderIrrelevant | vendor/sigs.k8s.io/gateway-api/apis/v1alpha1/httproute_types.go:190-197 | routes that list disjoint hosts send every request to the same backends in whatever order age and name put them |
| Routing.SelectionAgrees | pkg/reconciler/ingress/resources/httproute.go:93-158 | the same index has precedence among the generated rules and among the Ingress paths |
| Routing.RankAgrees | pkg/reconciler/ingress/resources/httproute.go:127-148 | a generated rule matches the requests its path matches, with the same path length and header count |
| Routing.HeadersAgree | pkg/reconciler/ingress/resources/httproute.go:100-123 | the filters deliver the promised headers: rewritten host over split over path over client |
| Routing.TargetsAgree | pkg/reconciler/ingress/resources/httproute.go:112-125 | forwards have the backends, ports, shares and headers of the splits, in order |
| Routing.PublishedRoutingIsIngressRouting | pkg/reconciler/ingress/ingress.go:84-98 | routes generated after the probe rules went in, in any order of age and name, route clients as the Ingress without them does by best path, equal ones by that order; that is its routing by first owner if first owners win in the order, as with disjoint hosts |
| IngressApi.ProbesCarryTheHash | vendor/knative.dev/networking/pkg/ingress/ingress.go:44-72 | every probe ends at the backends of the path selected apart from the hash header, with a client's shares and headers, and is told the hash, or what the split itself sets there |
| Routing.FirstMatchKeptExactly | vendor/knative.dev/networking/pkg/apis/networking/v1alpha1/ingress_types.go:187-191 | published precedence equals first-match precedence for every request if and only if every outranked overlap is covered by a still earlier path |
| Routing.RootFirstIsOverruled | vendor/sigs.k8s.io/gateway-api/apis/v1alpha1/httproute_types.go:176-197 | a root path listed before a longer one loses requests to it, against first-match order |
| Routing.BetterOfTwo | vendor/sigs.k8s.io/gateway-api/apis/v1alpha1/httproute_types.go:176-197 | of two matching paths the published rules choose the longer prefix, whatever the headers, then more headers, then the first |
| Routing.TrailingSlashReading | vendor/sigs.k8s.io/gateway-api/apis/v1alpha1/httproute_types.go:242-247 | if a trailing slash is ignored, a published path matches as the Ingress path does for every request if and only if it is the root or has none |
| IngressApi.ClientsSeeNoTwins | vendor/knative.dev/networking/pkg/ingress/ingress.go:51-69 | a request that is no probe selects the path it would select without the probe rules |
| IngressApi.ProbesReachTwins | vendor/knative.dev/networking/pkg/ingress/ingress.go:51-69 | for any paths a probe selects the twin of the path it would select if no path asked anything of the hash header |
| IngressApi.ProbesFollowClients | vendor/knative.dev/networking/pkg/ingress/ingress.go:44-72 | if the rules do not mention the hash header, a probe goes where a client goes and every backend is told the hash |
| IngressApi.DefaultingCompletes | vendor/knative.dev/networking/pkg/apis/networking/v1alpha1/ingress_defaults.go:58-64 | defaulting turns every admitted path into one whose percentages total 100, once and for all |
| Routing.AdmittedRulesDeliver | vendor/knative.dev/networking/pkg/apis/networking/v1alpha1/ingress_validation.go:84-131 | what the webhook admits has, once defaulted, the percentages the routing results ask for |
| IngressApi.DefaultedIsSettled | vendor/knative.dev/networking/pkg/apis/networking/v1alpha1/ingress_defaults.go:25-64 | defaulting is idempotent, sets just the unset visibilities and keeps the hosts |
| IngressApi.DefaultingChangesNothingElse | vendor/knative.dev/networking/pkg/apis/networking/v1alpha1/ingress_defaults.go:43-64 | defaulting changes no prefix, header match, rewritten host, appended header, backend, port, order, host or metadata, and no percentage but that of a lone split at 0 |
| IngressApi.DefaultingKeepsRouting | vendor/knative.dev/networking/pkg/apis/networking/v1alpha1/ingress_defaults.go:58-64 | defaulting leaves the rule and path of every request as they were, and the backends but for the share of a lone one without |
| Matching.Select | vendor/sigs.k8s.io/gateway-api/apis/v1alpha1/httproute_types.go:176-197 | the chosen match is outranked by none and ties with no earlier one; none is chosen if and only if none matches |
| Matching.SelectAcrossIsBest | vendor/sigs.k8s.io/gateway-api/apis/v1alpha1/httproute_types.go:176-197 | choosing the best of each route's best rule is choosing the best rule of all routes, ties to the earlier route and in it to the earlier rule |
| Resources.CanonicalRoute | pkg/reconciler/ingress/resources/httproute.go:47-71 | permuting a rule's hosts yields an equal route; sorting again changes nothing |
| Resources.LeastHostIsLeast | pkg/reconciler/ingress/resources/helpers.go:62-65 | the naming host is one of the hosts and no host is below it |
| Resources.LongestHost | pkg/reconciler/ingress/resources/helpers.go:58-65 | sorts the slice it is given in place and returns its least element |
| Resources.MetadataOfRoute | pkg/reconciler/ingress/resources/httproute.go:42-58 | visibility label by the rule over any Ingress label, other labels and annotations kept, last-applied dropped, name, namespace and controller; no status and no version |
| Resources.GatewayRefIsConfigured | pkg/reconciler/ingress/resources/httproute.go:75-90 | with an accepted configuration the route is open to exactly the gateway configured for its visibility |
| Resources.TrafficConserved | pkg/reconciler/ingress/resources/httproute.go:112-125 | weights total what percentages total, backends keep order and multiplicity, shares are the percentages when these total 100 |
| Resources.Int32Exact | pkg/reconciler/ingress/resources/httproute.go:115-117 | the conversion to 32 bits is exact if and only if the number fits, and otherwise wraps |
| Resources.MakeHTTPRouteRule | pkg/reconciler/ingress/resources/httproute.go:93-158 | the nested loops build the translation of every path in order |
| Resources.MakeHTTPRoute | pkg/reconciler/ingress/resources/httproute.go:36-61 | builds the route with sorted host names, because naming it sorts the shared slice first |
| GoStrings.SortHostsCanonical | pkg/reconciler/ingress/resources/helpers.go:63-63 | two host lists have the same sorted form if and only if they are permutations of each other |
| GoStrings.LeqIsLexicographic | pkg/reconciler/ingress/resources/helpers.go:63-63 | the order of sorting: prefix first, else by the first character that differs |
| GoStrings.SortStrings | pkg/reconciler/ingress/resources/helpers.go:63-63 | sorting in place |
| GoStrings.SplitOfKey | vendor/k8s.io/client-go/tools/cache/store.go:99-130 | splitting a composed key gives its parts back |
| GoStrings.SplitSucceedsExactly | vendor/k8s.io/client-go/tools/cache/store.go:118-130 | a key splits if and only if it is a bare name or a namespace/name pair |
| GoStrings.ComposedKeyInjective | pkg/client/gatewayapi/listers/apis/v1alpha1/httproute.go:90-91 | the lister's composed keys of slash-free namespaces never collide |
| Protocol.ListerIsKeyed | pkg/client/gatewayapi/listers/apis/v1alpha1/httproute.go:90-99 | the lister returns the object of exactly that namespace and name if and only if there is one |
| GatewayConfig.NewGatewayFromConfigMap | pkg/reconciler/ingress/config/gateway.go:70-124 | succeeds, in any iteration order, if and only if there are exactly the two visibilities with class and well-formed keys; entries are fresh and unshared; a refusal names a real fault; defaults without the key |
| GatewayConfig.FaultsMean | pkg/reconciler/ingress/config/gateway.go:95-120 | which complaint an entry earns: unrecognized visibility, else malformed service, else malformed gateway, else missing class |
| GatewayConfig.Gateway.Lookup | pkg/reconciler/ingress/config/gateway.go:126-148 | the look-ups answer with the gateway, class and service of the entry, and with empty strings for a missing or nil entry or a nil map |
| GatewayConfig.DefaultsAccepted | pkg/reconciler/ingress/config/gateway.go:37-80 | the built-in configuration passes the validator's own test |
| GatewayConfig.DefaultLookups | pkg/reconciler/ingress/config/gateway.go:38-80 | the look-ups of the built-in configuration, as literal strings |
| GatewayConfig.DiscardedErrorsAreNil | pkg/reconciler/ingress/config/gateway.go:106-148 | every look-up, of known and unknown visibilities, splits without error if and only if all configured keys do, as in every accepted configuration |
| GatewayConfig.Gateway.DeepCopy | pkg/reconciler/ingress/config/zz_generated.deepcopy.go:76-83 | the copy equals its source, nil map and nil entries included, and shares no object with it |
| GatewayConfig.Gateway.DeepCopyInto | pkg/reconciler/ingress/config/zz_generated.deepcopy.go:55-73 | fresh, pairwise distinct entries; the source is unchanged |
| GatewayConfig.Gateway.LoadAndOverwrite | pkg/reconciler/ingress/config/store.go:95-101 | the configuration handed out is a copy: overwriting it, through an entry or its map, changes it as told and leaves the stored one alone |
| Status.ReadyExactly | vendor/knative.dev/pkg/apis/condition_set.go:256-392 | what the marks of a completed pass add up to in the Ready condition |
| Status.StatusExactly | vendor/knative.dev/pkg/apis/condition_set.go:256-392 | the three conditions and both domains after the marks of any pass, from the status before it |
| Status.FailedNeverReady | pkg/reconciler/ingress/ingress.go:68-71 | a failed pass never ends ready and leaves the dependent conditions alone |
| Status.ReadyIsAdmittedBySomeone | vendor/sigs.k8s.io/gateway-api/apis/v1alpha1/shared_types.go:230-245 | a ready route was admitted by some gateway if and only if its status list is not empty |
| Status.IsHTTPRouteReady | pkg/reconciler/ingress/ingress.go:142-155 | ready if and only if the list is not nil and every gateway admitted the route |
| Status.EveryGatewayCounts | pkg/reconciler/ingress/ingress.go:144-155 | one gateway more keeps a route ready if and only if it admitted the route; an empty list is ready, a nil one is not |
| Status.FirstAdmittedDecides | pkg/reconciler/ingress/ingress.go:157-164 | the first Admitted condition decides, whatever stands before and behind it |
| Status.IsGatewayAdmitted | pkg/reconciler/ingress/ingress.go:157-164 | admitted if and only if the first Admitted condition exists and is true |
| Reconciler.Reconciler.ReconcileHTTPRoute | pkg/reconciler/ingress/reconcile_resources.go:36-85 | does the step of the pass; no cached object is written; the rule's own host list ends sorted |
| Reconciler.Reconciler.RunRules | pkg/reconciler/ingress/ingress.go:95-114 | the loop gives the outcome and status of the pass; it sorts the hosts of the rules it got to and no others |
| Reconciler.Reconciler.ReconcileIngress | pkg/reconciler/ingress/ingress.go:77-140 | the prober is asked about the copy made before the probe rules and the sorting, with its value intact |
| Reconciler.Reconciler.ReconcileKind | pkg/reconciler/ingress/ingress.go:63-75 | server, error and status are those of the pass as a function of values; over a sound world the Ingress ends ready if and only if the pass completed, the probe answered yes, and a judged route was ready or the network was configured before, or unset while ready; the domains are set just when the probe answers yes |
| Ingresses.Ingress.DeepCopy | pkg/reconciler/ingress/ingress.go:85-85 | equal value, new host lists and blocks only |
| Ingresses.Ingress.SetDefaults | vendor/knative.dev/networking/pkg/apis/networking/v1alpha1/ingress_defaults.go:25-64 | defaulting in place, host lists and blocks kept, nothing changed but unset visibilities and lone percentages of 0 |
| Ingresses.Ingress.InsertProbe | vendor/knative.dev/networking/pkg/ingress/ingress.go:44-72 | every block gets a twin of each path in front, carrying the hash of the Ingress before the change |
| ProbeTargets.ListProbeTargets | pkg/reconciler/ingress/lister.go:55-109 | one target per rule in order with the union of all addresses, one URL per host; with endpoints found it fails if and only if that union is empty |
| ProbeTargets.GetIngressUrls | pkg/reconciler/ingress/lister.go:76-109 | port and scheme by visibility and HTTP option |
| ProbeTargets.ProbedPorts | pkg/reconciler/ingress/lister.go:32-109 | the literal ports and schemes of each case |
| ProbeTargets.ProbedIsPublished | pkg/reconciler/ingress/lister.go:79-108 | rule by rule the probed hosts are the published hostnames, each as often, and include the route's name |
| Informers.SharedInformerFactory.InformerFor | pkg/client/gatewayapi/informers/externalversions/factory.go:147-166 | one informer per type over any sequence of calls, always the same one, its resync period fixed at first request |
| Informers.SharedInformerFactory.Start | pkg/client/gatewayapi/informers/externalversions/factory.go:111-121 | afterwards every built informer runs, and none has been run twice |
| Informers.SharedInformerFactory.WaitForCacheSync | pkg/client/gatewayapi/informers/externalversions/factory.go:124-143 | reports on exactly the started informers |
| Informers.LastResyncWins | pkg/client/gatewayapi/informers/externalversions/factory.go:53-60 | the last option naming a type settles its resync period |
| Informers.UnnamedKeepsResync | pkg/client/gatewayapi/informers/externalversions/factory.go:53-75 | options that do not name a type leave its resync period alone |
| Informers.LastNamespaceWins | pkg/client/gatewayapi/informers/externalversions/factory.go:71-76 | the last option setting the namespace settles it |
| Informers.LastTweakWins | pkg/client/gatewayapi/informers/externalversions/factory.go:63-68 | the last option setting the list filter settles it |
| Informers.UnsetKeepsSettings | pkg/client/gatewayapi/informers/externalversions/factory.go:53-76 | options that do not set the namespace or the filter leave them alone |

## Left out

- Reconciler.Reconciler.ReconcileIngress: takes the loaded configuration by value; its heap form is in GatewayConfig.dfy.
- Informers.SharedInformerFactory.Start: methods are single steps, as under the lock; the informers' own goroutines are not part of this model.
- Reconciler.Reconciler.RunRules: reads the cache as it is when the pass begins; reads of a cache that changes in between are in Interleaving.dfy (`EveryLivePassConverges`).
- Convergence.ConvergesExactly: speaks of the controller's writes only; other writers of the same routes are modelled for status alone (Interleaving.dfy).
- Routing.RankAgrees: hosts are compared as whole strings and header names as given; wildcards and case folding are not part of this model.
- Service-name, port and type pointers in forwards and matches are modelled as the values they point to, so their freshness is not stated.
- An Ingress rule without an HTTP block: defaulting dereferences it before the probe insertion's own check can refuse it, so such rules are not values of the model; neither are rules without hosts, for which naming the route fails.
- Reason, message and time of conditions, and conditions other than Ready and its two dependents.
- Route fields the controller never sets (TLS, query parameters, mirrors, extension references) and the size limits of the route schema.
- Server-side defaulting and admission, deletion of routes, and updates that carry no version.
- Several objects of one type as keys of one resync option, for which the source's result depends on map order.
- YAML parsing, hashing, the prober's own work queue, event recording, logging and controller wiring.
- Typed clients, fakes, per-kind informers and filtered factories, which add no hard property.

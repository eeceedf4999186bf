# Gefyra: verified models of route handling, bridging and connection

Gefyra connects a container on a developer's machine to a Kubernetes cluster. Its operator keeps a table of proxy
routes through which cluster traffic reaches the clients, compiles GefyraBridge objects into the configuration of the
Carrier2 proxy, and drives bridges, mounts and clients through their states. This project models that behaviour in
Dafny and proves what the parts promise each other.

## What is modelled

Proxy routes (`text`, `encoding`, `sets`, `table`, `collector`, `stowaway`, `runs`, `editlock`). The operator stores each
route twice, as a text in a ConfigMap and as a Service with labels, and takes both apart again in other places. The
class `Stowaway` edits the two stores in place, with the source's own string operations. A ghost table from proxy port
to route is what both stores encode; `Agree` says so, every operation keeps it, and whole runs are then studied on the
table. `editlock` is a step model with program counters of the locked section of `_edit_proxyroutes_configmap`, one
step between any two awaits and any number of tasks.

Bridges (`objects`, `carrier`, `dispatch`, `cluster`, `intactness`, `controller`, `lifecycle`, `cohabitation`,
`bridge`). `CarrierConfig` is the
compiler from a list of bridges to Carrier2's configuration, `Dispatch` is Carrier2's interpretation of it. The class
`Cluster` joins the Stowaway's stores, the bridge objects with their `clusterEndpoint` and the configuration of the
Pod; `GefyraBridge` is the state machine with the handlers that drive it.

Smaller protocols. `mount` is the timer of a bridge mount with its grace period and its shadow workload, `peers` the peer ConfigMap and the
admission of subnets, `network` the client's search for a subnet and its retry loop, `tls` the TLS parameters from the
command line to the files in the Pod, `cache` the Secret reader with its cache of one minute, `clones` the names and
labels of shadow workloads.

Conventions. Inputs from outside are parameters: the drawn suffixes of route keys (ten letters, hence without dash;
fresh), the clock, what the provider, Docker and the API server answer, and the matcher for regular expressions. A
destination address belongs to one client, because a removal matches the destination only
(`operator/gefyra/connection/stowaway/__init__.py:520`). Events sent inside a transition action run after that
transition and before the outer call returns. The iteration order of a dictionary is left open wherever the source
depends on it, except for `bridges` in the Carrier2 configuration, which YAML keeps in insertion order. A Python
exception is a `Failure`.

## What holds, and where the code falls short

* Teardown undoes setup, also one that raised half way; a second teardown changes nothing; other routes are untouched
  even when freed ports are reused. A teardown takes away another bridge's route exactly if both share the address and
  a local port (`TeardownSparesIff`).
* Setup can succeed and leave a bridge that is not intact, because `clusterEndpoint` is keyed by the texts of target
  ports and the configuration by their numbers: `8080:80` with `9090:080` (`ActiveButNotIntact`). On a mount of its own
  a bridge is intact after its setup if and only if mappings to the same target port, however written, share the local
  port (`SoleIntactIff`, `ActivateAlone`); among other bridges the condition suffices, and the exact one is
  `SetUpIntactIff`. A bridge compiles without fault if and only if its rules validate and each of its target ports is
  served and written canonically by one of its mappings (`FaultyIff`).
* Deletion after activation restores routes and Services in any case. The entries of an active bridge leave the
  configuration only if the teardown finds one of its mappings configured; on a mount of its own that is so if and only
  if a mapping that wins its target port is the first on its local port (`SoleConfiguredIff`, `DeleteAlone`). With
  `1:90`, `2:80`, `1:80` and `2:90` the entries stay and lead to freed proxy ports (`DeletedButConfigured`).
* A setup goes through if and only if all mappings parse, the Stowaway Pod is there and ports are left for the routes
  that are missing, and everything is configured already or the Pods answer and the bridge is deployable (`SetsUp`). The
  handlers end in ACTIVE exactly then (`BridgeCreate`, `BridgeReconcile`, `UpdateBridgeDestination`).
* The handlers of other bridges, each of which rebuilds the whole configuration, leave a bridge that has been set up
  intact unless they tear down a route that it shares (`StaysIntact`).
* Intactness asks for the route's URL in the entry of any bridge on the port, so it can rest on another bridge's entry
  while the bridge's own leads to a port that has been given to somebody else (`IntactByItsTwin`); `OwnEntryIff` says
  exactly when it does not.
* The collector keeps exactly the backed routes once every bridge has its endpoints. Before, a bridge without
  `clusterEndpoint` makes it raise, and a route added but not yet noted in its bridge is collected
  (`RouteCollectedBeforePatch`). Its reading of an address is exact if and only if the address has no colon or comma
  (`IpRoundTrip`), so not for IPv6: a live route to such an address is always collected (`ForeignAddressIsDebris`).
* The substring test of `destination_exists` alone is not membership (`SubstringAloneIsNotMembership`); together with
  the lookup by labels it is, as long as routes and Services agree (`ExistsIff`).
* The comment over the lock speaks of overwritten entries only; without the lock two adds would also share a proxy port
  (`UnlockedAddsCollide`).
* Comments notwithstanding, `add_proxy_route` has no effective guard against repetition: its flag is set on an object
  that is built anew for every use. Likewise `on_installing` is no callback of any event, and TERMINATED is never
  stored, so that the timer's branch for it is not taken (`NeverStoredTerminated`).
* A mount does not recover from MISSING, although the comment on `recover` has it enter the full installation again:
  marking it as missing deletes its shadow workload, recovery leads to PREPARING without preparing one, and everything
  from there asks for the shadow. It stays stranded
  for ever (`StrandedForEver`, `PreparingForEver`) unless the shadow could not be deleted (`MissingRecoversIff`). A
  mount whose target has a name of more than 56 characters never becomes ACTIVE at all (`LongNameNeverActive`).
* Peers whose names differ only in separators are one peer for the ConfigMap, and the subnet of the second is not stored
  (`NamesCollide`, `StoredIffNew`).
* The subnet picker may return an occupied subnet after 255 creations; an error other than 409 puts a network on the
  list twice, and its second removal raises (`GetSubnet`).
* The three resolvers of TLS parameters agree for all parameters that the client produces, but not in general: a block
  with a certificate and no key before a global block makes the configuration name a file that is not written
  (`SplitBlockDisagrees`); `ResolversAgreeIff` gives the exact condition on the parameters.
* A shadow workload is found again exactly if the original's name has at most 56 characters (`FoundIff`), and is kept
  apart from it unless all selector labels are 63 characters long and end in the suffix (`ApartIff`).

## Model

| member | source | states |
|---|---|---|
| Text.StrOfParse | operator/gefyra/bridge/carrier2/config.py:210-246 | `str(int(s))` is `s` again if and only if `s` is a canonical numeral |
| Text.ParseStr | operator/gefyra/connection/stowaway/__init__.py:479-480 | `int(str(n))` is `n` for every port |
| Text.CutLastAt | operator/gefyra/connection/stowaway/handler.py:185 | `rsplit(sep, 1)` recovers both halves if the second has no separator, whatever the first contains |
| Text.CutFirstJoins | operator/gefyra/connection/stowaway/__init__.py:372 | what `split(sep, 1)` returns joins to the text again, and its first half has no separator |
| Text.ParseNatIff | operator/gefyra/bridge/carrier2/config.py:210 | a text is taken for a port if and only if it consists of decimal digits |
| Text.StrIsDecimal | operator/gefyra/connection/stowaway/__init__.py:510-514 | `str(n)` writes decimal digits, the last one last |
| Text.ContainsIff | operator/gefyra/connection/stowaway/__init__.py:338-340 | `in` finds exactly the texts that the value consists of with something before and after |
| Encoding.ValueDecodes | operator/gefyra/connection/stowaway/__init__.py:479-522 | a stored route value reads back as the destination and the proxy port that were written |
| Encoding.RouteDecodes | operator/gefyra/connection/stowaway/handler.py:183-187 | the collector reads address, destination and proxy port of every written route exactly |
| Encoding.IpRoundTrip | operator/gefyra/connection/stowaway/handler.py:186 | the address is read back exactly if and only if it contains neither colon nor comma |
| Encoding.PeerDecodes | operator/gefyra/connection/stowaway/handler.py:185 | the client's name survives in the route key even if it has dashes |
| Encoding.DestInjective | operator/gefyra/connection/stowaway/__init__.py:519-520 | equal destination texts mean equal address and port |
| Encoding.LabelInjective | operator/gefyra/connection/stowaway/__init__.py:240-253 | equal destination labels mean equal address and port |
| Encoding.ServiceNameInjective | operator/gefyra/connection/stowaway/resources/services.py:61 | different proxy ports have different Service names |
| Encoding.ServicePortDecodes | operator/gefyra/connection/stowaway/__init__.py:259 | the port is recovered from a proxy Service's name |
| Encoding.UrlDecodes | operator/gefyra/connection/stowaway/handler.py:192-196 | host and proxy port are recovered from an endpoint by both ways of splitting it |
| Encoding.RouteTexts | operator/gefyra/connection/stowaway/__init__.py:206-237 | key and value of a route as texts, and the labels of its Service |
| Encoding.ServiceTexts | operator/gefyra/connection/stowaway/__init__.py:255-260 | name and URL of a proxy Service as texts |
| Table.EncodingUnique | operator/gefyra/connection/stowaway/__init__.py:206-290 | a table determines the ConfigMap and the Services, so equal tables mean equal stores |
| Table.TableUnique | operator/gefyra/connection/stowaway/__init__.py:206-290 | conversely agreeing stores encode one table only |
| Table.FreeFrom | operator/gefyra/connection/stowaway/__init__.py:483-486 | the port found is free and every smaller one in the range is taken; none means that all are taken |
| Table.FirstFitBound | operator/gefyra/connection/stowaway/__init__.py:483-486 | the port is at most 10000 plus the number of taken ports, and exists if fewer than 50000 are taken |
| Table.ExhaustedIff | operator/gefyra/connection/stowaway/__init__.py:483-486 | allocation fails if and only if there are 50000 routes |
| Table.AddKeepsOk | operator/gefyra/connection/stowaway/__init__.py:504-515 | an add with a fresh key for a new destination keeps ports in range and ports, keys and destinations distinct |
| Table.AddAgrees | operator/gefyra/connection/stowaway/__init__.py:206-237 | the two writes of an add keep ConfigMap and Services in one-to-one agreement |
| Collector.KeptIff | operator/gefyra/connection/stowaway/handler.py:188-205 | a route is kept if and only if some bridge backs it before any bridge without endpoints, and the loop raises in the opposite order |
| Collector.KeptExactlyBacked | operator/gefyra/connection/stowaway/handler.py:183-209 | if every bridge has its endpoints nothing raises and exactly the backed routes are kept |
| Collector.KeptByFields | operator/gefyra/connection/stowaway/handler.py:183-209 | the same on the fields: some bridge of the client and the address has an endpoint with the proxy port behind its colon |
| Collector.CollectTwice | operator/gefyra/connection/stowaway/handler.py:183-219 | a second collection with the same bridges changes nothing and does not raise |
| Collector.RouteCollectedBeforePatch | operator/gefyra/bridgestate.py:206-216 | a route that is added but not yet noted in its bridge is taken for debris |
| Collector.UrlBacks | operator/gefyra/connection/stowaway/handler.py:189-196 | the endpoint that setup stores makes the bridge back exactly this proxy port |
| StowawayProvider.Stowaway.constructor | operator/gefyra/connection/stowaway/resources/configmaps.py:7-18 | the stores start empty and in agreement |
| StowawayProvider.Stowaway.GetFreeProxyroutePort | operator/gefyra/connection/stowaway/__init__.py:470-486 | returns the least port in 10000..59999 that no stored value carries, or fails if there is none |
| StowawayProvider.Stowaway.EditProxyroutesAdd | operator/gefyra/connection/stowaway/__init__.py:504-515 | enters the value on the least free port under the drawn key and changes no other entry |
| StowawayProvider.Stowaway.EditProxyroutesRemove | operator/gefyra/connection/stowaway/__init__.py:516-532 | deletes one entry with the destination, if there is one, and returns its port, else 0 |
| StowawayProvider.Stowaway.AddDestination | operator/gefyra/connection/stowaway/__init__.py:206-237 | adds exactly one route and its Service on the least free port and returns its URL; a missing Pod is reported after both writes; a new destination keeps the stores in agreement |
| StowawayProvider.Stowaway.StoreDestination | operator/gefyra/connection/stowaway/components.py:309-342 | the Service named after the allocated port carries the new labels, whether created or patched |
| StowawayProvider.Stowaway.GetDestination | operator/gefyra/connection/stowaway/__init__.py:239-260 | returns the URL of the route's own proxy port, and fails if and only if the client has no such destination |
| StowawayProvider.Stowaway.DestinationExists | operator/gefyra/connection/stowaway/__init__.py:309-346 | true if and only if the client has a route to the destination |
| StowawayProvider.Stowaway.LookUpDestination | operator/gefyra/connection/stowaway/__init__.py:315-340 | the two tests as they stand: a Service with the labels, and the destination somewhere in a value |
| StowawayProvider.Stowaway.RemoveDestination | operator/gefyra/connection/stowaway/__init__.py:262-290 | keeps agreement and removes exactly the route to the destination, of whichever client, with its Service |
| StowawayProvider.Stowaway.ReconcileProxyroutes | operator/gefyra/connection/stowaway/handler.py:127-235 | keeps agreement; ends with exactly the collected table, or unchanged if it is not ready or raises |
| StowawayProvider.Stowaway.ReplaceRoutes | operator/gefyra/connection/stowaway/handler.py:211-229 | comparing the numbers of routes detects every change, so the stores are the kept ones in either case |
| StowawayProvider.Stowaway.SiftRoutes | operator/gefyra/connection/stowaway/handler.py:176-209 | the loops compute the kept routes and the Services of all others, and raise exactly if a verdict does |
| StowawayProvider.Stowaway.DeleteServicesOfRoutes | operator/gefyra/connection/stowaway/handler.py:154-166 | without bridges the Services of all routes are deleted and no other |
| StowawayProvider.JudgeLoop | operator/gefyra/connection/stowaway/handler.py:188-205 | the loop with its `break` and `else` computes the verdict |
| StowawayProvider.ExistsIff | operator/gefyra/connection/stowaway/__init__.py:309-346 | under agreement labels and substring test together are exact membership |
| StowawayProvider.SubstringAloneIsNotMembership | operator/gefyra/connection/stowaway/__init__.py:338-340 | the value of a port contains the text of every port that its number begins with |
| StowawayProvider.CollectedStores | operator/gefyra/connection/stowaway/handler.py:176-229 | the kept routes and the remaining Services encode exactly the collected table |
| StowawayProvider.ServiceJudged | operator/gefyra/connection/stowaway/handler.py:205-229 | no deleted Service belongs to a kept route |
| StowawayProvider.RemovedStores | operator/gefyra/connection/stowaway/__init__.py:262-290 | removing any matching entry and the Service of its port is removing the destination from the table |
| Runs.GuardIsExact | operator/gefyra/bridgestate.py:203-208 | if addresses have owners the guard of setup excludes a second route for the destination of any client |
| Runs.RunKeepsOk | operator/gefyra/connection/stowaway/__init__.py:206-290 | over every run of guarded adds, removes and collections ports, keys and destinations stay distinct and ports in range |
| Runs.PortsBelowPeak | operator/gefyra/connection/stowaway/__init__.py:483-486 | from empty, every port of every run is below 10000 plus the peak number of simultaneous routes |
| Runs.RouteStays | operator/gefyra/connection/stowaway/__init__.py:206-260 | a destination keeps its proxy port, hence its URL, through every run that does not remove or collect it |
| Runs.RemovedStaysGone | operator/gefyra/connection/stowaway/__init__.py:262-290 | a removed destination is absent until it is added again |
| EditLock.Serializable | operator/gefyra/connection/stowaway/__init__.py:41-534 | in every interleaving the ConfigMap is that of the committed edits one after the other in lock order; these are the edits that tasks have written, each once; every returned port is the one of that serial run, whose edits are what `SerialRemove` and `SerialAdd` say |
| EditLock.SerialRemove | operator/gefyra/connection/stowaway/__init__.py:516-532 | a remove of the serial run takes away one route that has the destination and returns its port, or nothing and 0 if none has it |
| EditLock.SerialAdd | operator/gefyra/connection/stowaway/__init__.py:504-515 | an add of the serial run enters the route on the least port from 10000 to 59999 that no value carries, as `EditProxyroutesAdd` does |
| EditLock.LockedRemove | operator/gefyra/connection/stowaway/__init__.py:516-532 | the same of the locked remove in every interleaving, of the ConfigMap at the moment of its write |
| EditLock.LockedAdd | operator/gefyra/connection/stowaway/__init__.py:504-515 | the same of the locked add |
| EditLock.RemovedUntilAdded | operator/gefyra/connection/stowaway/__init__.py:494-534 | a remove that has returned took away, at some moment, the route whose port it returned; a destination that was stored once then has no route afterwards until an add of it writes |
| EditLock.NeverStuck | operator/gefyra/connection/stowaway/__init__.py:494-534 | no deadlock: the holder of the lock can always take its next step and gives the lock up at the end, and a waiting task can take a free lock; an add raises only if all 50000 ports are stored |
| EditLock.PortsStayDistinct | operator/gefyra/connection/stowaway/__init__.py:494-515 | in every interleaving stored proxy ports stay distinct and within 10000..59999 |
| EditLock.PatchEffect | operator/gefyra/connection/stowaway/__init__.py:504-515 | the patch of an add merges to exactly the serial effect of that add |
| EditLock.ReplaceEffect | operator/gefyra/connection/stowaway/__init__.py:516-532 | the replacement by a remove is exactly the serial effect of that remove |
| EditLock.UnlockedAddsCollide | operator/gefyra/connection/stowaway/__init__.py:41-44 | two adds that both read before either writes end on one proxy port |
| CarrierConfig.Carrier2Config.AddBridgeRulesForMount | operator/gefyra/bridge/carrier2/config.py:181-242 | raises exactly if the bridge being added is listed, included and faulty; else every proxy has the declared entries of its port |
| CarrierConfig.Carrier2Config.AddBridge | operator/gefyra/bridge/carrier2/config.py:206-241 | a bridge gets through exactly if no mapping is faulty; the mappings before the first fault are entered |
| CarrierConfig.Carrier2Config.EnterMapping | operator/gefyra/bridge/carrier2/config.py:209-234 | one mapping enters one entry at the first proxy of its port, or nothing if it is faulty |
| CarrierConfig.GetRulesForBridge | operator/gefyra/bridge/carrier2/config.py:250-255 | yields the rules that carry a match in their order, and raises if rules are missing or invalid |
| CarrierConfig.MatchingRulesAre | operator/gefyra/bridge/carrier2/config.py:250-255 | the rules of a list are those of its parts, in order, and one rule that does not validate spoils every list |
| CarrierConfig.DeclaredFromEmpty | operator/gefyra/bridge/carrier2/config.py:200-242 | from proxies without bridges each port gets exactly the entries of its bridges in list order |
| CarrierConfig.CompileTwice | operator/gefyra/bridge/carrier2/config.py:200-242 | a second compilation of the list changes nothing |
| CarrierConfig.EntryIff | operator/gefyra/bridge/carrier2/config.py:200-242 | as a dictionary the result is independent of order: a bridge has its entry if and only if it is included and maps the port |
| CarrierConfig.OthersUnaffected | operator/gefyra/bridge/carrier2/config.py:235-241 | whatever is wrong with one bridge, the entries of the others and their order are as without it |
| CarrierConfig.ExcludeIsDelete | operator/gefyra/bridge/carrier2/config.py:203-205 | excluding a bridge is compiling the list without it |
| Dispatch.AndIsHit | carrier2/src/lib.rs:84-111 | a hit if and only if every condition holds, a header condition for some header |
| Dispatch.PathConditionIff | carrier2/src/lib.rs:24-32 | a path condition hits exactly the paths that begin with its text, are equal to it or match it |
| Dispatch.HeaderConditionIff | carrier2/src/lib.rs:42-68 | a header condition hits if and only if one and the same header has its name and a value that begins with its own, equals it or matches it |
| Dispatch.OrIsHit | carrier2/src/lib.rs:118-129 | a hit if and only if some AND group hits |
| Dispatch.FromYaml | carrier2/src/lib.rs:138-156 | one client for every entry of the mapping, in its order |
| Dispatch.UpstreamPeer | carrier2/src/main.rs:105-145 | the endpoint of the first entry that hits, else the cluster |
| Dispatch.Route | carrier2/src/main.rs:105-145 | loading a proxy's entries and dispatching gives the first hit in configuration order |
| Dispatch.RoutedToFirst | carrier2/src/main.rs:110-121 | a request goes to the endpoint of the first listed bridge that maps the port and has a rule all of whose conditions hold; to the cluster if and only if there is none |
| Dispatch.PrefixRouted | carrier2/src/main.rs:110-121 | a bridge with one path prefix gets exactly the requests for paths beginning with it that no bridge before it takes; on a mount of its own all others go to the cluster |
| Dispatch.CompiledRoutes | operator/gefyra/bridge/carrier2/config.py:181-242 | the same through the compiled configuration |
| Dispatch.NonInterference | carrier2/src/main.rs:110-121 | a bridge inserted or removed anywhere changes the upstream only of requests that it takes itself |
| Dispatch.CommandLineRulesAreConjoined | client/gefyra/local/bridge.py:129-142 | the rules of a command line hit if and only if every condition of every option holds |
| BridgeRoutes.UrlUnique | operator/gefyra/bridgestate.py:210-216 | a destination has one URL |
| BridgeRoutes.ParseMappingIff | operator/gefyra/bridgestate.py:202 | a mapping is read if and only if it has two parts, the first of them a number |
| Intactness.FaultyIff | operator/gefyra/bridge/carrier2/config.py:206-248 | with the endpoints that a setup stores a bridge is faulty if and only if its rules do not validate or some target port is not served or not written canonically by any of its mappings |
| Intactness.RebuiltHasIff | operator/gefyra/bridge/carrier2/__init__.py:409-455 | after a rebuild `proxy_route_exists` finds an endpoint at a port of a faultless bridge if and only if it is its own or that of another bridge entered there |
| Intactness.MappingIntactIff | operator/gefyra/bridgestate.py:172-233 | after a setup a mapping is intact if and only if it has the local port of the last mapping with its canonical target text, or another bridge on the port has its URL |
| Intactness.SetUpIntactIff | operator/gefyra/bridgestate.py:172-233 | the exact condition under which a bridge is intact after its setup |
| Intactness.SoleIntactIff | operator/gefyra/bridgestate.py:213-216 | for the only bridge of a mount: if and only if mappings to one target port share the local port |
| Intactness.OneLocalPortSuffices | operator/gefyra/bridgestate.py:172-233 | among any other bridges this condition suffices |
| Intactness.TwoWaysDeployable | operator/gefyra/bridgestate.py:201-216 | a target port written in two ways for two local ports is deployable and violates the condition |
| Intactness.OwnEntryIff | operator/gefyra/bridge/carrier2/__init__.py:448-455 | an intact mapping's own entry leads to its route if and only if the stored endpoint is the route's URL or no other bridge has that URL on the port |
| Intactness.ConfiguredIff | operator/gefyra/bridgestate.py:252-283 | after a setup the teardown finds the bridge configured if and only if some mapping wins its target port, or shares its URL there, and is the first on its local port |
| Intactness.SoleConfiguredIff | operator/gefyra/bridgestate.py:252-283 | for the only bridge of a mount, the same condition on its mappings alone |
| Intactness.CrossedDeployable | operator/gefyra/bridgestate.py:252-283 | mappings such as `1:90`, `2:80`, `1:80`, `2:90` are deployable and violate it |
| BridgeRoutes.RebuiltLacks | operator/gefyra/bridge/carrier2/__init__.py:237-248 | after a rebuild without a bridge it has no entry on any port |
| BridgeController.Cluster.ProxyRouteExists | operator/gefyra/bridge/carrier2/__init__.py:409-455 | true exactly if the Pods can be listed, the bridge is entered at the port and some bridge there has the endpoint; fails at most for a target that is no number |
| BridgeController.Cluster.AddProxyRoute | operator/gefyra/bridge/carrier2/__init__.py:115-143 | succeeds exactly if the Pods answer and the bridge is not faulty, and commits the rebuild of all bridges |
| BridgeController.Cluster.RemoveProxyRoute | operator/gefyra/bridge/carrier2/__init__.py:391-407 | commits the rebuild without the bridge; no fault of any other bridge makes it raise |
| BridgeController.Cluster.EnsureDestination | operator/gefyra/bridgestate.py:203-212 | afterwards the destination exists, at the URL returned; nothing is added if it existed |
| BridgeController.Cluster.HandleProxyrouteSetup | operator/gefyra/bridgestate.py:200-233 | adds exactly the bridge's routes, a prefix of them if it raises; on success every target text has the URL of its last mapping, and all mappings were found in place or the configuration was rebuilt with the bridge in it; goes through if and only if all mappings parse, the Pod is there and ports are left for the routes that are missing, and everything is configured already or the Pods answer and the bridge is deployable; else the configuration stays |
| BridgeController.Cluster.SetUpDestinations | operator/gefyra/bridgestate.py:201-220 | the first loop adds one route for every missing destination; under each target text the URL of the last mapping with it is stored; goes through if and only if all mappings parse and, where routes are missing, the Pod is there and there are ports for them |
| BridgeController.Cluster.SetUpConfig | operator/gefyra/bridgestate.py:222-233 | the second loop finds all mappings in place and changes nothing, or ends with the rebuild of all bridges, this one without fault; with all routes there it raises exactly if something is not in place and the Pods do not answer or the bridge is faulty, and then changes nothing |
| BridgeController.DeployableSetsUp | operator/gefyra/bridgestate.py:200-233 | the setup of a deployable bridge goes through if the Stowaway Pod is there, the Pods answer and there are ports for all its mappings |
| BridgeController.Cluster.IsIntact | operator/gefyra/bridgestate.py:172-198 | true if and only if the Pods can be listed and every mapping has its route, the bridge is entered at its target port and some bridge there has that route's URL |
| BridgeController.Cluster.HandleProxyrouteTeardown | operator/gefyra/bridgestate.py:252-299 | removes exactly the bridge's destinations, those before the fault if it raises, which only a malformed mapping makes it do; the configuration is rebuilt without the bridge if and only if the Pods answer and some mapping was configured whose route no mapping before it took away |
| BridgeController.CompletedIsIntact | operator/gefyra/bridgestate.py:172-233 | a completed setup with one local port for each target port leaves the bridge intact and every mapping's own URL stored |
| BridgeController.CompletedIntactIff | operator/gefyra/bridgestate.py:172-233 | for a bridge that was not configured before, the exact condition under which a completed setup leaves it intact |
| BridgeController.CompletedConfigured | operator/gefyra/bridgestate.py:252-283 | a teardown after a completed setup finds the bridge configured if its mappings to one target port share the local port, or if one that wins is the first on its local port |
| BridgeController.CompletedConfiguredIff | operator/gefyra/bridgestate.py:252-283 | for the only bridge of a mount, not configured before, exactly in the latter case |
| BridgeController.AddFailsIfFaulty | operator/gefyra/bridge/carrier2/config.py:235-241 | with distinct names adding a bridge fails if and only if that bridge is faulty |
| BridgeLifecycle.TeardownExact | operator/gefyra/bridgestate.py:252-299 | teardown removes exactly the rows for the address on the bridge's local ports |
| BridgeLifecycle.TeardownUndoesSetup | operator/gefyra/bridgestate.py:200-299 | teardown after a setup, complete or not, gives back the table before |
| BridgeLifecycle.TeardownTwice | operator/gefyra/bridgestate.py:252-299 | a second teardown changes nothing |
| BridgeLifecycle.SetupTwice | operator/gefyra/bridgestate.py:200-216 | a second setup adds nothing |
| BridgeLifecycle.TeardownSparesIff | operator/gefyra/bridgestate.py:284-295 | another bridge keeps a route if and only if it does not share address and local port |
| BridgeLifecycle.DestinationChange | operator/gefyra/handler/bridges.py:42-58 | teardown and setup leave every other row in place, even when freed ports are reused, and none for the old address on the mapped ports |
| BridgeLifecycle.SetUpHasOneRouteEach | operator/gefyra/bridgestate.py:201-216 | a set up bridge has exactly one route for each distinct local port |
| BridgeLifecycle.LiveRouteIsNoDebris | operator/gefyra/connection/stowaway/handler.py:183-209 | a route whose URL a listed bridge of its client and address has stored is never debris |
| BridgeLifecycle.ForeignAddressIsDebris | operator/gefyra/connection/stowaway/handler.py:183-209 | a route to an address with a colon or comma is debris, whatever the bridges of its client store |
| BridgeLifecycle.CollectKeepsEndpoints | operator/gefyra/connection/stowaway/handler.py:127-229 | a collection that knows a set up bridge leaves all its routes |
| BridgeLifecycle.EndpointsStay | operator/gefyra/bridgestate.py:200-299 | through every run of others' adds, removes and collections a set up bridge keeps its routes and URLs |
| BridgeLifecycle.TornDownConfig | operator/gefyra/bridge/carrier2/__init__.py:237-248 | the configuration after teardown has no entry of the bridge and is a rebuild of the list without it |
| BridgeLifecycle.RequestReachesClient | carrier2/src/main.rs:110-121 | a request that a set up bridge takes first goes to a proxy port whose route leads to its client, address and local port |
| BridgeLifecycle.IntactByItsTwin | operator/gefyra/bridgestate.py:252-299 | after a run in which a shared route is taken away and set up again elsewhere, the other bridge passes as intact while its own entry leads to another client's route |
| Cohabitation.AsSetUpIsSound | operator/gefyra/bridgestate.py:160-233 | in a deployable bridge that was set up, with one local port for each target port, every own entry leads to the mapping's own route |
| Cohabitation.SoundIsIntact | operator/gefyra/bridgestate.py:172-198 | such a bridge is intact |
| Cohabitation.RebuildKeepsEntry | operator/gefyra/bridge/carrier2/__init__.py:224-248 | every rebuild that includes a faultless bridge has its own entries, whatever has become of the others |
| Cohabitation.OthersKeepSound | operator/gefyra/bridgestate.py:200-299 | setup, teardown, change of destination and collection of other bridges, complete or raised half way, leave such a bridge as it is unless they tear down a shared route |
| Cohabitation.StaysIntact | operator/gefyra/bridgestate.py:160-299 | it stays intact through every run of the handlers of other bridges that do not tear down a shared route |
| BridgeHandlers.UsableIff | operator/gefyra/connection/stowaway/__init__.py:506-508 | for a clean address of one client, and only for one, there are suffixes to draw in every state of the routes, which is all that the handlers assume |
| BridgeHandlers.GefyraBridge.Install | operator/gefyra/bridgestate.py:129-155 | a provider that is not ready raises and keeps the transition from happening; otherwise INSTALLED or ERROR |
| BridgeHandlers.GefyraBridge.Activate | operator/gefyra/bridgestate.py:160-170 | ends in ACTIVE if and only if the setup can go through (`HandleProxyrouteSetup`), else in ERROR with the configuration as it was; with one local port for each target port an active bridge is intact, has its URLs stored as cluster endpoints and one route per local port |
| BridgeHandlers.GefyraBridge.ActivateSole | operator/gefyra/bridgestate.py:160-233 | the only bridge of a mount, not configured before, becomes active exactly if its setup can go through, and is then intact if and only if mappings to one target port share the local port |
| BridgeHandlers.ActivateAlone | operator/gefyra/bridgestate.py:160-233 | a bridge becomes active on a mount of its own if and only if it is deployable, and is then intact if and only if the condition holds |
| BridgeHandlers.ActiveButNotIntact | operator/gefyra/bridgestate.py:160-233 | every bridge with mappings such as `8080:80` and `9090:080` becomes active there and is not intact |
| BridgeHandlers.GefyraBridge.Restore | operator/gefyra/bridgestate.py:301-302 | ends in INSTALLED |
| BridgeHandlers.GefyraBridge.BridgeCreate | operator/gefyra/handler/bridges.py:21-39 | a bridge that is requested, installing or installed ends ACTIVE if and only if its setup can go through, else in ERROR, unless the provider does not install it (ERROR) or is awaited (raises, nothing changed); every other state stays; once ACTIVE its routes are there, every target text has the URL of its last mapping, and it is intact if mappings to one target port share the local port |
| BridgeHandlers.GefyraBridge.UpdateBridgeDestination | operator/gefyra/handler/bridges.py:42-58 | for an active bridge a teardown and a setup from what the teardown leaves, which ends ACTIVE if and only if it can go through: nothing is left for the old address, other routes are untouched; if it ends ACTIVE the cluster endpoints are the URLs for the new address, and the bridge is intact if mappings to one target port share the local port; otherwise no effect |
| BridgeHandlers.GefyraBridge.BridgeReconcile | operator/gefyra/handler/bridges.py:61-102 | a bridge that has been active and is in ERROR, installed, installing with its provider ready, or active and not found intact is set up again, and ends ACTIVE if and only if the setup can go through, else in ERROR; every other bridge and its routes stay as they are; once ACTIVE again it has its endpoints stored and is intact if mappings to one target port share the local port |
| BridgeHandlers.GefyraBridge.InstallAndActivate | operator/gefyra/handler/bridges.py:36-39 | the last steps of both handlers: from INSTALLED, or INSTALLING with a ready provider, to ACTIVE or ERROR as the setup can go through or not |
| BridgeHandlers.GefyraBridge.BridgeDelete | operator/gefyra/handler/bridges.py:105-119 | terminates exactly if all mappings parse, removing exactly the bridge's routes; the configuration becomes the rebuild without it if it was configured and the Pods answer, and stays otherwise; a second run changes nothing |
| BridgeHandlers.GefyraBridge.ActivateThenDelete | operator/gefyra/bridgestate.py:160-299 | deletion after activation, successful or not, restores exactly the routes and Services; the configuration of an active bridge becomes the rebuild without it under either condition of `CompletedConfigured`, for the only bridge of a mount if and only if one of its mappings frees it |
| BridgeHandlers.DeleteAlone | operator/gefyra/bridgestate.py:160-299 | every deployable bridge activated and deleted on a mount of its own leaves no route and no Service, and no entry if and only if that condition holds |
| BridgeHandlers.DeletedButConfigured | operator/gefyra/bridgestate.py:252-299 | every bridge with mappings such as `1:90`, `2:80`, `1:80`, `2:90` is deleted there and stays in the configuration |
| BridgeMounts.GefyraBridgeMount.Arrange | operator/gefyra/bridge_mount_state.py:229-244 | PREPARING, or ERROR if the workload cannot be prepared; the shadow is there once it was duplicated under the name it is looked up by |
| BridgeMounts.GefyraBridgeMount.Install | operator/gefyra/bridge_mount_state.py:246-285 | the outcome for every answer of the provider: unchanged, ERROR, INSTALLING or ACTIVE |
| BridgeMounts.GefyraBridgeMount.Operate | operator/gefyra/handler/bridge_mounts.py:153-177 | the resulting state and shadow for every state and every answer of the provider, which finds nothing without a shadow; the mount stays operational and keeps its MISSING stamp |
| BridgeMounts.GefyraBridgeMount.BridgeMountReconcile | operator/gefyra/handler/bridge_mounts.py:104-186 | one run of the timer is one step of the protocol, with the uninstall of the shadow when the target is found missing and on termination |
| BridgeMounts.GefyraBridgeMount.BridgeMountCreated | operator/gefyra/handler/bridge_mounts.py:13-59 | the resulting state for every stored state and every answer of the provider; nothing is written once the mount has been active; raises exactly unless it is or has been ACTIVE |
| BridgeMounts.TerminatedOnlyAfterGrace | operator/gefyra/handler/bridge_mounts.py:128-148 | over all runs: terminated for a missing target only if no tick since the latest entry into MISSING saw the target and the grace period has passed since that entry: the object's own, also if it is 0, else the operator's |
| BridgeMounts.TerminatedAtDeadline | operator/gefyra/bridge_mount_state.py:167-181 | while the target stays away a tick terminates the mount if and only if it comes at or after the deadline by that period |
| BridgeMounts.ReentryRestartsGrace | operator/gefyra/bridge_mount_state.py:76-78 | after a recovery only a later entry into MISSING counts for it |
| BridgeMounts.ActiveIsStamped | operator/gefyra/base.py:40-45 | a mount that has been ACTIVE once is under the timer ever after |
| BridgeMounts.GefyraBridgeMount.MissingGracePeriodExpired | operator/gefyra/bridge_mount_state.py:160-181 | expired exactly if MISSING is stamped and the object's own period, or without one the default, has passed since |
| BridgeMounts.StrandedForEver | operator/gefyra/bridge_mount_state.py:199-219 | a mount in MISSING, PREPARING or INSTALLING without a shadow stays so in every run after its first activation, hence is never ACTIVE again |
| BridgeMounts.PreparingForEver | operator/gefyra/handler/bridge_mounts.py:160-170 | if its target stays there it remains in PREPARING |
| BridgeMounts.TwoTicksRecoverIff | operator/gefyra/handler/bridge_mounts.py:128-177 | two ticks that find target and provider in order make a mount ACTIVE again if and only if it is not stranded |
| BridgeMounts.MissingRecoversIff | operator/gefyra/bridge_mount_state.py:76-78 | a missing mount can become ACTIVE again by some run if and only if its shadow is still there |
| BridgeMounts.RecoverableIffUninstallFails | operator/gefyra/bridge_mount_state.py:199-212 | which is so if and only if the shadow was there and could not be deleted when the target was found missing |
| BridgeMounts.LongNameNeverActive | operator/gefyra/bridge_mount/carrier2mount/__init__.py:107-109 | a mount whose target has a name of more than 56 characters is never ACTIVE in any run |
| BridgeMounts.NeverStoredTerminated | operator/gefyra/base.py:40-45 | TERMINATED is never stored |
| Peers.Translate | operator/gefyra/connection/stowaway/__init__.py:467-468 | a translated name is alphanumeric and not shorter |
| Peers.NamesCollide | operator/gefyra/connection/stowaway/__init__.py:467-468 | names that differ in a separator only, or in three zeros for it, are one peer |
| Peers.SplitJoin | operator/gefyra/connection/stowaway/__init__.py:441-444 | the list of peers reads back as it was written |
| Peers.NetAddressIff | operator/gefyra/connection/stowaway/__init__.py:372 | the address of a subnet is the text before its first slash, or all of it |
| Peers.IsCidrIff | operator/gefyra/connection/stowaway/__init__.py:62 | a subnet validates if and only if it is four numbers of one to three digits joined by dots, a slash and a fifth |
| Peers.TakenIff | operator/gefyra/connection/stowaway/__init__.py:363-376 | a subnet is taken if and only if some peer has one of the same address, whatever the prefix lengths |
| Peers.PeerTable.SubnetTaken | operator/gefyra/connection/stowaway/__init__.py:363-376 | true if and only if some peer's subnet has the same network address |
| Peers.PeerTable.Validate | operator/gefyra/connection/stowaway/__init__.py:348-361 | admits exactly the subnets of the required form, and of the newly given ones those whose address no peer has under any prefix length |
| Peers.PeerTable.PeerExists | operator/gefyra/connection/stowaway/__init__.py:182-192 | true if and only if the translated name is listed |
| Peers.PeerTable.AddPeer | operator/gefyra/connection/stowaway/__init__.py:437-452 | lists the name once with its subnet; a subnet that is still free keeps network addresses distinct |
| Peers.PeerTable.RemovePeer | operator/gefyra/connection/stowaway/__init__.py:439-465 | takes the name and its subnet off the ConfigMap and keeps it consistent |
| Peers.RemoveListed | operator/gefyra/connection/stowaway/__init__.py:453-459 | exactly the name is taken off the list, which reads back as one empty name when it becomes empty |
| Peers.WithoutFirst | operator/gefyra/connection/stowaway/__init__.py:454 | only the first occurrence of a name is taken off, and the others keep their order |
| Peers.NoSharedAddress | operator/gefyra/connection/stowaway/__init__.py:348-452 | after any run, of clients with subnets and without, the subnets of two registered peers are of different addresses, whatever their prefix lengths |
| Peers.StoredIffNew | operator/gefyra/connection/stowaway/__init__.py:441-452 | an admitted subnet is stored if and only if no client of that translated name is listed |
| Peers.SubnetStays | operator/gefyra/connection/stowaway/__init__.py:425-465 | a stored subnet stays until its peer leaves |
| SubnetNegotiation.Docker.GetSubnet | client/gefyra/local/networking.py:42-73 | succeeds exactly if a network was created and no error but 409 occurred; then all temporary networks are gone and the result is unoccupied if and only if some creation yielded a free subnet |
| SubnetNegotiation.Docker.TryCreations | client/gefyra/local/networking.py:52-68 | a network is listed twice exactly if an error other than 409 occurred |
| SubnetNegotiation.Docker.RemoveAll | client/gefyra/local/networking.py:69-70 | every listed network is removed exactly if none is listed twice |
| SubnetNegotiation.ManyCreationsFindFree | client/gefyra/local/networking.py:47-68 | more successful creations than occupied subnets include a free one |
| SubnetNegotiation.Propose | client/gefyra/types/client.py:296-326 | each proposal is the network that is there, or one picked with exactly the subnets refused so far banned; a refused network is removed, another failure keeps it; ends with the first acceptance, after ten attempts, or where none can be created |
| SubnetNegotiation.Negotiate | client/gefyra/types/client.py:296-326 | at most ten proposals; success exactly if the last one was accepted; a picker that avoids banned subnets never leads to a refused one again, and to a connection if it always finds one, exactly the taken subnets are refused and fewer than ten are taken |
| SubnetNegotiation.NegotiationSucceeds | client/gefyra/types/client.py:296-326 | if exactly the taken subnets are refused and fewer than ten are taken, the proposals do not run out |
| TlsParameters.ResolversAgreeIff | operator/gefyra/bridge_mount/utils.py:134-344 | injected file and configured path agree if and only if no half-filled block of the port or of all ports has a Secret at stake, in terms of the given parameters |
| TlsParameters.ClientParametersAgree | operator/gefyra/bridge_mount/utils.py:134-344 | for all parameters the client produces and every port the two agree, and nothing is injected without TLS |
| TlsParameters.SplitBlockDisagrees | operator/gefyra/bridge_mount/utils.py:294-321 | a port's block with a certificate but no key before a complete global block breaks the agreement |
| TlsParameters.FileNamesDiffer | operator/gefyra/bridge_mount/utils.py:24-25 | no two injected files share a name |
| TlsParameters.ConfigPathIs | operator/gefyra/bridge_mount/utils.py:291-344 | what the configuration names for a port: the path given for it or for all ports, or the file that stands for a Secret there |
| TlsParameters.InjectedIs | operator/gefyra/bridge_mount/utils.py:221-254 | which file is written: that of the port if the port has the field, else that of all ports |
| TlsParameters.SecretNotationReads | client/gefyra/local/mount.py:96-128 | every Secret can be written in the notation, in small or capital letters, and is read back, with the default namespace where none is given |
| TlsParameters.SecretNotationFails | client/gefyra/local/mount.py:100-120 | without a colon, a name or a key nothing is read |
| TlsParameters.PlainIff | client/gefyra/local/mount.py:96-98 | any text that does not begin with `secret:` in small or capital letters stands for itself |
| TlsParameters.ParseArgReads | client/gefyra/local/mount.py:157-170 | value and port are read back from `value@port`; a text without `@` is a value for all ports; a port that is no number raises |
| TlsParameters.EnterField | client/gefyra/local/mount.py:172-197 | the last value for a port wins and arguments without a port enter nothing; raises exactly if some argument does not parse |
| TlsParameters.GetPortsFromTlsArgs | client/gefyra/local/mount.py:131-205 | succeeds if and only if all arguments parse and every mentioned port has certificate and key; then exactly the mentioned ports, each with its last values |
| TlsParameters.GetTlsConfig | client/gefyra/local/mount.py:213-243 | the exact condition for success; only complete blocks, for single ports or, where no port is mentioned, for all; the latter with the values given, a name for SNI included |
| SecretCache.SecretReader.Read | operator/gefyra/bridge_mount/utils.py:88-131 | a fresh copy with the key is used, otherwise the API server is asked and what it holds is cached, but no empty Secret |
| SecretCache.CachedWasHeld | operator/gefyra/bridge_mount/utils.py:108-113 | every cached copy is what the Secret held at its timestamp |
| SecretCache.StalenessBound | operator/gefyra/bridge_mount/utils.py:93-131 | over every run a returned value is one the Secret held at a read less than 60 seconds before, or at this one |
| SecretCache.OneVersion | operator/gefyra/bridge_mount/utils.py:96-131 | keys read within a minute of one look at the API server come from one version of the Secret, and are what decoding makes of it |
| ShadowWorkloads.ConformName | operator/gefyra/bridge_mount/utils.py:40-46 | the name fits the length, ends in the suffix, and is only cut if it has to be |
| ShadowWorkloads.FixedPointIff | operator/gefyra/bridge_mount/utils.py:40-58 | a value is its own duplicate if and only if it has 63 characters and ends in the suffix |
| ShadowWorkloads.SameDuplicateIff | operator/gefyra/bridge_mount/utils.py:40-58 | two values have the same duplicate if and only if their first 56 characters agree |
| ShadowWorkloads.FoundIff | operator/gefyra/bridge_mount/carrier2mount/__init__.py:107-109 | the shadow is looked up under its own name if and only if the original's name has at most 56 characters |
| ShadowWorkloads.GetDuplicationLabels | operator/gefyra/bridge_mount/carrier2mount/__init__.py:83-89 | exactly the same keys, each with its value duplicated |
| ShadowWorkloads.CloneWorkload | operator/gefyra/bridge_mount/carrier2mount/__init__.py:198-233 | the clone has the duplicated name, labels and selector, and its Pods carry the identifier |
| ShadowWorkloads.ApartIff | operator/gefyra/bridge_mount/carrier2mount/__init__.py:412-440 | original and shadow select each other's Pods if and only if every selector label has 63 characters and ends in the suffix; the shadow selects its own |
| ShadowWorkloads.ShadowPodApart | operator/gefyra/bridge_mount/carrier2mount/__init__.py:225-240 | the shadow of a single Pod never selects the original |

## Left out

- EditLock.Serializable: the collector is one step that finds the lock free, because the code does not guard it; agreement of routes and Services is claimed between whole operations, not between their awaits.
- Collector.Judge: an endpoint without a colon is passed over where Python would raise; the operator writes none.
- Text.ParseNat: accepts decimal digits only, while Python's `int` also takes signs, spaces and underscores.
- StowawayProvider.Stowaway.AddDestination: a missing Stowaway Pod is the only failure of the API that is modelled, as for removals; agreement is claimed for new destinations, which its only caller makes sure of, whose address has no colon or comma, as the collector cannot read others (`IpRoundTrip`).
- BridgeController.Cluster.AddProxyRoute: all Pods of a workload receive the same configuration and there is at least one; `podsListed` and `carrierReady` stand for all ways in which they may not answer.
- BridgeController.Cluster.ProxyRouteExists: an exception while the configuration is read from the Pod.
- Dispatch.FromYaml: the TLS flag and the SNI that each client inherits.
- BridgeHandlers.GefyraBridge.BridgeReconcile: exceptions other than those of setup, teardown and the provider are not modelled.
- BridgeMounts.GefyraBridgeMount.BridgeMountReconcile: deletion of the mount object and of its remaining bridges after termination; somebody other than the operator may delete the shadow workload, but creates none under its name.
- SubnetNegotiation.Negotiate: the ten repetitions inside `handle_create_network` and its check of an existing network's options are one outcome of the picker.
- TlsParameters.ConfigPath: the SNI value and the transfer of file contents into the Pod.
- Dispatch.UpstreamPeer: regular expressions are a parameter; panics on invalid ones or on header values that are not text, load balancing and the unfinished error arm without a cluster upstream.
- Namespaces: the operator's namespace is the default one.
- Peers.IsCidr: the pattern's tolerance of one trailing newline and of decimal digits of other scripts.
- YAML, pydantic and serde: dumping and loading is the identity that keeps the order of mappings.
- Service accounts, CRDs, manifests, the HTTP layer of webhooks, the CLI, events, installation and waiting loops.
- Small parsers for WireGuard status, container arguments and quantities, and plain facts about transition tables: true but easy.

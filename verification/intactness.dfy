/** When a bridge that has been set up is intact, and what intactness does not say. */
module Intactness {
  import opened Wrappers
  import opened Text
  import opened Encoding
  import opened Table
  import opened Objects
  import opened CarrierConfig
  import opened BridgeRoutes

  // ----- Which bridges can be deployed -----

  lemma MappingDeployable(t: Table, b: Bridge, ip: string, ports: seq<nat>, i: nat)
    requires i < |b.portMappings| && ParseMapping(b.portMappings[i]).Some?
    requires LastEndpoints(t, b, ip, |b.portMappings|)
    ensures DeployableMapping(b, ports, b.portMappings[i]) ==> MappingOk(b, ports, b.portMappings[i])
    ensures OwnEndpoints(b) && MappingOk(b, ports, b.portMappings[i]) ==> DeployableMapping(b, ports, b.portMappings[i])
  {
    var mapping := b.portMappings[i];
    ParsedTarget(mapping);
    if ParseNat(TargetText(mapping)).Some? {
      var text := Str(ParseNat(TargetText(mapping)).value);
      var k := LastWith(b.portMappings, text, |b.portMappings|);
      if k >= 0 {
        assert EndpointOfLast(t, b, ip, |b.portMappings|, TargetText(b.portMappings[k]));
      }
    }
  }

  /**
    With the endpoints that a setup stores a bridge compiles without fault if and only if its rules validate, its
    target ports are served, and each is written canonically by one of its mappings.
   */
  lemma FaultyIff(t: Table, b: Bridge, ip: string, ports: seq<nat>)
    requires Parses(b) && LastEndpoints(t, b, ip, |b.portMappings|)
    ensures Deployable(b, ports) ==> !Faulty(b, ports)
    ensures OwnEndpoints(b) ==> (Faulty(b, ports) <==> !Deployable(b, ports))
  {
    forall i | 0 <= i < |b.portMappings|
      ensures DeployableMapping(b, ports, b.portMappings[i]) ==> MappingOk(b, ports, b.portMappings[i])
      ensures OwnEndpoints(b) && MappingOk(b, ports, b.portMappings[i]) ==> DeployableMapping(b, ports, b.portMappings[i])
    {
      MappingDeployable(t, b, ip, ports, i);
    }
  }

  // ----- Entries of a rebuilt configuration -----

  /** Bridge `k` is entered at port `p`, with this endpoint. */
  predicate HasEntry(bridges: seq<Bridge>, k: int, ports: seq<nat>, p: nat, endpoint: string) {
    0 <= k < |bridges| && Entered(bridges[k], ports, p, None) && EntryOf(bridges[k], ports, p).bridge.endpoint == endpoint
  }

  predicate SomeEndpoint(entries: seq<Named>, endpoint: string) {
    exists j :: 0 <= j < |entries| && entries[j].bridge.endpoint == endpoint
  }

  lemma SomeEndpointAppend(xs: seq<Named>, ys: seq<Named>, endpoint: string)
    ensures SomeEndpoint(xs + ys, endpoint) <==> SomeEndpoint(xs, endpoint) || SomeEndpoint(ys, endpoint)
  {
    var all := xs + ys;
    if j :| 0 <= j < |xs| && xs[j].bridge.endpoint == endpoint {
      assert all[j] == xs[j];
    }
    if j :| 0 <= j < |ys| && ys[j].bridge.endpoint == endpoint {
      assert all[|xs| + j] == ys[j];
    }
  }

  ghost predicate SomeHasEntry(bridges: seq<Bridge>, ports: seq<nat>, p: nat, endpoint: string) {
    exists k :: HasEntry(bridges, k, ports, p, endpoint)
  }

  lemma SomeHasEntryStep(bridges: seq<Bridge>, ports: seq<nat>, p: nat, endpoint: string)
    requires bridges != []
    ensures SomeHasEntry(bridges, ports, p, endpoint) <==>
      HasEntry(bridges, 0, ports, p, endpoint) || SomeHasEntry(bridges[1..], ports, p, endpoint)
  {
    var rest := bridges[1..];
    if k :| HasEntry(bridges, k, ports, p, endpoint) && k != 0 {
      assert HasEntry(rest, k - 1, ports, p, endpoint);
    }
    if k :| HasEntry(rest, k, ports, p, endpoint) {
      assert HasEntry(bridges, k + 1, ports, p, endpoint);
    }
  }

  lemma {:induction false} EntriesAre(bridges: seq<Bridge>, ports: seq<nat>, p: nat, endpoint: string)
    ensures SomeEndpoint(Expected(bridges, ports, p, None), endpoint) <==> SomeHasEntry(bridges, ports, p, endpoint)
  {
    if bridges != [] {
      var b, rest := bridges[0], bridges[1..];
      EntriesAre(rest, ports, p, endpoint);
      assert [b] + rest == bridges;
      ExpectedAppend([b], rest, ports, p, None);
      ExpectedSingle(b, ports, p, None);
      SomeEndpointAppend(Single(b, ports, p, None), Expected(rest, ports, p, None), endpoint);
      SomeHasEntryStep(bridges, ports, p, endpoint);
      SingleEndpoint(b, ports, p, endpoint);
    }
  }

  lemma SingleEndpoint(b: Bridge, ports: seq<nat>, p: nat, endpoint: string)
    ensures SomeEndpoint(Single(b, ports, p, None), endpoint) <==>
      Entered(b, ports, p, None) && EntryOf(b, ports, p).bridge.endpoint == endpoint
  {
    if Entered(b, ports, p, None) {
      assert Single(b, ports, p, None)[0] == EntryOf(b, ports, p);
    }
  }

  /** Another bridge is entered at the port with this endpoint. */
  ghost predicate OtherHas(bridges: seq<Bridge>, me: nat, ports: seq<nat>, p: nat, endpoint: string) {
    exists k :: k != me && HasEntry(bridges, k, ports, p, endpoint)
  }

  /** For a bridge without fault `proxy_route_exists` finds an endpoint that is its own or some other's on the port. */
  lemma RebuiltHasIff(base: seq<Proxy>, bridges: seq<Bridge>, me: nat, config: seq<Proxy>, i: nat, endpoint: string)
    requires Unbridged(base) && DistinctBridges(bridges) && me < |bridges| && Rebuilt(base, bridges, me, config)
    requires i < |bridges[me].portMappings| && Target(bridges[me].portMappings[i]).Some?
    ensures var p := Target(bridges[me].portMappings[i]).value;
      && Str(p) in EndpointsOf(bridges[me])
      && (ConfigHas(config, p, endpoint, bridges[me].name) <==>
           EndpointsOf(bridges[me])[Str(p)] == endpoint || OtherHas(bridges, me, PortsOf(base), p, endpoint))
  {
    var b, ports, p := bridges[me], PortsOf(base), Target(bridges[me].portMappings[i]).value;
    NotFaultyMaps(b, ports, i);
    MapsConverts(b, ports, p);
    RebuiltEntries(base, bridges, None, config, p);
    OwnEntry(bridges, me, ports, p, None);
    EntriesAre(bridges, ports, p, endpoint);
    assert HasEntry(bridges, me, ports, p, EndpointsOf(b)[Str(p)]);
    assert ConfigHas(config, p, endpoint, b.name) <==> SomeEndpoint(Expected(bridges, ports, p, None), endpoint);
  }

  // ----- When a setup leaves a bridge intact -----

  lemma UrlOfPort(t: Table, client: string, ip: string, port: nat, port': nat, url: string, url': string)
    requires TableOk(t) && UrlIs(t, client, ip, port, url) && UrlIs(t, client, ip, port', url')
    ensures url == url' <==> port == port'
  {
    var p :| p in t && ServesPeer(t[p], client, ip, port) && url == Url(p);
    var q :| q in t && ServesPeer(t[q], client, ip, port') && url' == Url(q);
    if url == url' {
      UrlInjective(p, q);
    }
  }

  /** The state that a completed setup leaves behind, except that the configuration may have been found in place. */
  ghost predicate SetUp(t: Table, base: seq<Proxy>, bridges: seq<Bridge>, me: nat, config: seq<Proxy>) {
    && TableOk(t) && Unbridged(base) && DistinctBridges(bridges) && me < |bridges|
    && var b := bridges[me];
    && Parses(b) && OwnEndpoints(b) && Rebuilt(base, bridges, me, config)
    && LastEndpoints(t, b, b.destinationIP, |b.portMappings|) && AllPresent(t, b, b.destinationIP, |b.portMappings|)
  }

  /** The mapping has the local port of the last one whose text is the canonical one of its target port. */
  predicate Wins(b: Bridge, mapping: string) {
    ParseNat(TargetText(mapping)).Some? &&
    var k := LastWith(b.portMappings, Str(ParseNat(TargetText(mapping)).value), |b.portMappings|);
    k >= 0 && LocalPort(b.portMappings[k]) == LocalPort(mapping)
  }

  /** Another bridge on the target port has the URL of the mapping's route. */
  ghost predicate OtherServes(t: Table, bridges: seq<Bridge>, me: nat, ports: seq<nat>, mapping: string)
    requires me < |bridges|
  {
    ParseNat(TargetText(mapping)).Some? &&
    exists url :: UrlIs(t, bridges[me].client, bridges[me].destinationIP, LocalPort(mapping), url)
      && OtherHas(bridges, me, ports, ParseNat(TargetText(mapping)).value, url)
  }

  lemma RouteUrl(t: Table, client: string, ip: string, port: nat) returns (url: string)
    requires TableOk(t) && HasPeerDest(t, client, ip, port)
    ensures UrlIs(t, client, ip, port, url)
    ensures forall other :: UrlIs(t, client, ip, port, other) ==> other == url
  {
    var q :| q in t && ServesPeer(t[q], client, ip, port);
    url := Url(q);
    forall other | UrlIs(t, client, ip, port, other)
      ensures other == url
    {
      UrlUnique(t, client, ip, port, other, url);
    }
  }

  /** The stored endpoint of the target port is the mapping's URL exactly if the mapping wins. */
  lemma WinsByUrl(t: Table, b: Bridge, mapping: string, url: string)
    requires TableOk(t) && LastEndpoints(t, b, b.destinationIP, |b.portMappings|) && OwnEndpoints(b)
    requires ParseNat(TargetText(mapping)).Some? && Str(ParseNat(TargetText(mapping)).value) in EndpointsOf(b)
    requires UrlIs(t, b.client, b.destinationIP, LocalPort(mapping), url)
    ensures EndpointsOf(b)[Str(ParseNat(TargetText(mapping)).value)] == url <==> Wins(b, mapping)
  {
    var text := Str(ParseNat(TargetText(mapping)).value);
    var stored := EndpointsOf(b)[text];
    var k := LastWith(b.portMappings, text, |b.portMappings|);
    assert EndpointOfLast(t, b, b.destinationIP, |b.portMappings|, TargetText(b.portMappings[k]));
    UrlOfPort(t, b.client, b.destinationIP, LocalPort(b.portMappings[k]), LocalPort(mapping), stored, url);
  }

  /** After a setup a mapping is intact if and only if it wins its target port, or another bridge has its URL there. */
  lemma MappingIntactIff(t: Table, base: seq<Proxy>, bridges: seq<Bridge>, me: nat, config: seq<Proxy>, i: nat)
    requires SetUp(t, base, bridges, me, config) && i < |bridges[me].portMappings|
    ensures var b, mapping := bridges[me], bridges[me].portMappings[i];
      Reachable(t, config, b, b.destinationIP, mapping) <==>
        Wins(b, mapping) || OtherServes(t, bridges, me, PortsOf(base), mapping)
  {
    var b, mapping := bridges[me], bridges[me].portMappings[i];
    NotFaultyMaps(b, PortsOf(base), i);
    ParsedTarget(mapping);
    var url := RouteUrl(t, b.client, b.destinationIP, LocalPort(mapping));
    RebuiltHasIff(base, bridges, me, config, i, url);
    WinsByUrl(t, b, mapping, url);
  }

  /** All mappings win exactly if those to one target port share the local port. */
  lemma WinsIff(b: Bridge, ports: seq<nat>)
    requires Deployable(b, ports)
    ensures (forall i {:trigger b.portMappings[i]} :: 0 <= i < |b.portMappings| ==> Wins(b, b.portMappings[i])) <==> OneLocalPort(b)
  {
    forall i | 0 <= i < |b.portMappings|
      ensures OneLocalPort(b) ==> Wins(b, b.portMappings[i])
    {
      var p := ParseNat(TargetText(b.portMappings[i])).value;
      var k := LastWith(b.portMappings, Str(p), |b.portMappings|);
      ParseStr(p);
      assert DeployableMapping(b, ports, b.portMappings[i]);
      assert SameTarget(b.portMappings[i], b.portMappings[k]);
    }
  }

  /**
    A bridge that has been set up is intact if and only if every mapping wins its target port or shares its URL with
    another bridge there.
   */
  lemma SetUpIntactIff(t: Table, base: seq<Proxy>, bridges: seq<Bridge>, me: nat, config: seq<Proxy>)
    requires SetUp(t, base, bridges, me, config)
    ensures Intact(t, config, bridges[me]) <==> Served(t, base, bridges, me)
  {
    var b := bridges[me];
    forall i | 0 <= i < |b.portMappings|
      ensures Reachable(t, config, b, b.destinationIP, b.portMappings[i]) <==>
        Wins(b, b.portMappings[i]) || OtherServes(t, bridges, me, PortsOf(base), b.portMappings[i])
    {
      MappingIntactIff(t, base, bridges, me, config, i);
    }
  }

  /** Every mapping wins its target port or shares its URL with another bridge there. */
  ghost predicate Served(t: Table, base: seq<Proxy>, bridges: seq<Bridge>, me: nat)
    requires me < |bridges|
  {
    forall i {:trigger bridges[me].portMappings[i]} :: 0 <= i < |bridges[me].portMappings| ==>
      (Wins(bridges[me], bridges[me].portMappings[i])
       || OtherServes(t, bridges, me, PortsOf(base), bridges[me].portMappings[i]))
  }

  /** The only bridge of a mount is intact after its setup exactly if mappings to one target port share the local port. */
  lemma SoleIntactIff(t: Table, base: seq<Proxy>, b: Bridge, config: seq<Proxy>)
    requires SetUp(t, base, [b], 0, config)
    ensures Intact(t, config, b) <==> OneLocalPort(b)
  {
    SetUpIntactIff(t, base, [b], 0, config);
    FaultyIff(t, b, b.destinationIP, PortsOf(base));
    WinsIff(b, PortsOf(base));
  }

  /** Among any other bridges the condition still suffices, and every mapping then has its own URL stored. */
  lemma OneLocalPortSuffices(t: Table, base: seq<Proxy>, bridges: seq<Bridge>, me: nat, config: seq<Proxy>)
    requires SetUp(t, base, bridges, me, config) && OneLocalPort(bridges[me])
    ensures Intact(t, config, bridges[me])
  {
    SetUpIntactIff(t, base, bridges, me, config);
    FaultyIff(t, bridges[me], bridges[me].destinationIP, PortsOf(base));
    WinsIff(bridges[me], PortsOf(base));
  }

  lemma OwnUrlsStored(t: Table, b: Bridge, ip: string)
    requires OneLocalPort(b) && LastEndpoints(t, b, ip, |b.portMappings|)
    requires forall i {:trigger b.portMappings[i]} :: 0 <= i < |b.portMappings| ==> ParseNat(TargetText(b.portMappings[i])).Some?
    ensures EndpointsSet(t, b, ip, |b.portMappings|)
  {
    forall i | 0 <= i < |b.portMappings|
      ensures EndpointSet(t, b, ip, b.portMappings[i])
    {
      var text := TargetText(b.portMappings[i]);
      assert EndpointOfLast(t, b, ip, |b.portMappings|, text);
      var k := LastWith(b.portMappings, text, |b.portMappings|);
      assert SameTarget(b.portMappings[i], b.portMappings[k]);
    }
  }

  // ----- When a teardown finds a bridge configured -----

  /** One of the mappings wins its target port, or shares its URL there, and is the first on its local port. */
  ghost predicate ServedFirst(t: Table, base: seq<Proxy>, bridges: seq<Bridge>, me: nat)
    requires me < |bridges|
  {
    var b := bridges[me];
    exists i {:trigger b.portMappings[i]} :: 0 <= i < |b.portMappings|
      && !MapsBefore(b, i, LocalPort(b.portMappings[i]))
      && (Wins(b, b.portMappings[i]) || OtherServes(t, bridges, me, PortsOf(base), b.portMappings[i]))
  }

  /** After a setup, the teardown rebuilds the configuration without the bridge if and only if there is such a mapping. */
  lemma ConfiguredIff(t: Table, base: seq<Proxy>, bridges: seq<Bridge>, me: nat, config: seq<Proxy>)
    requires SetUp(t, base, bridges, me, config)
    ensures SomeConfigured(t, config, bridges[me], bridges[me].destinationIP, |bridges[me].portMappings|)
      <==> ServedFirst(t, base, bridges, me)
  {
    var b := bridges[me];
    forall i | 0 <= i < |b.portMappings|
      ensures Reachable(t, config, b, b.destinationIP, b.portMappings[i]) <==>
        Wins(b, b.portMappings[i]) || OtherServes(t, bridges, me, PortsOf(base), b.portMappings[i])
    {
      MappingIntactIff(t, base, bridges, me, config, i);
    }
  }

  /** The same on the mappings alone. */
  ghost predicate FreesItself(b: Bridge) {
    exists i {:trigger Wins(b, b.portMappings[i])} :: 0 <= i < |b.portMappings|
      && Wins(b, b.portMappings[i]) && !MapsBefore(b, i, LocalPort(b.portMappings[i]))
  }

  lemma SoleConfiguredIff(t: Table, base: seq<Proxy>, b: Bridge, config: seq<Proxy>)
    requires SetUp(t, base, [b], 0, config)
    ensures SomeConfigured(t, config, b, b.destinationIP, |b.portMappings|) <==> FreesItself(b)
  {
    ConfiguredIff(t, base, [b], 0, config);
    assert forall i :: 0 <= i < |b.portMappings| ==> !OtherServes(t, [b], 0, PortsOf(base), b.portMappings[i]);
  }

  lemma FreesItselfSuffices(t: Table, base: seq<Proxy>, bridges: seq<Bridge>, me: nat, config: seq<Proxy>)
    requires SetUp(t, base, bridges, me, config) && FreesItself(bridges[me])
    ensures SomeConfigured(t, config, bridges[me], bridges[me].destinationIP, |bridges[me].portMappings|)
  {
    var b := bridges[me];
    var i :| 0 <= i < |b.portMappings| && Wins(b, b.portMappings[i]) && !MapsBefore(b, i, LocalPort(b.portMappings[i]));
    MappingIntactIff(t, base, bridges, me, config, i);
    assert Reachable(t, config, b, b.destinationIP, b.portMappings[i]);
  }

  // ----- A bridge whose setup succeeds and that is not intact -----

  function MappingText(local: nat, target: string): string { Str(local) + ":" + target }

  lemma MappingParses(local: nat, target: string)
    requires ':' !in target
    ensures ParseMapping(MappingText(local, target)) == Some((local, target))
    ensures LocalPort(MappingText(local, target)) == local && TargetText(MappingText(local, target)) == target
  {
    StrHasNo(local, ':');
    SplitAt(Str(local), ':', target);
    SplitWhole(target, ':');
    assert MappingText(local, target) == Str(local) + [':'] + target;
    ParseStr(local);
  }

  lemma {:induction false} LeadingZero(s: string)
    requires ParseNat(s).Some?
    ensures ParseNat("0" + s) == ParseNat(s)
  {
    var z, n := "0" + s, |s| - 1;
    assert z[|s|] == s[n] && z[..|s|] == "0" + s[..n];
    if n == 0 {
      assert z[..1] == "0";
      assert ParseNat("0") == Some(0);
    } else {
      LeadingZero(s[..n]);
    }
  }

  /** Such as `8080:80` and `9090:080`: the same target port, written in two ways, for two local ports. */
  function TwoWays(local: nat, local': nat, target: nat): seq<string> {
    [MappingText(local, Str(target)), MappingText(local', "0" + Str(target))]
  }

  /** Nothing keeps this bridge from being deployed, but its mappings do not share the local port. */
  lemma TwoWaysDeployable(b: Bridge, local: nat, local': nat, target: nat, ports: seq<nat>)
    requires b.portMappings == TwoWays(local, local', target) && local != local'
    requires RulesOf(b).Some? && target in ports
    ensures Parses(b) && Deployable(b, ports) && !OneLocalPort(b)
  {
    StrHasNo(target, ':');
    MappingParses(local, Str(target));
    MappingParses(local', "0" + Str(target));
    ParseStr(target);
    LeadingZero(Str(target));
    assert TargetText(b.portMappings[0]) == Str(target);
    assert LastWith(b.portMappings, Str(target), 2) >= 0;
    assert SameTarget(b.portMappings[0], b.portMappings[1]);
  }

  /** Such as `1:90`, `2:80`, `1:80`, `2:90`: each mapping that wins comes after another on its local port. */
  function Crossed(local: nat, local': nat, target: nat, target': nat): seq<string> {
    [MappingText(local, Str(target')), MappingText(local', Str(target)),
     MappingText(local, Str(target)), MappingText(local', Str(target'))]
  }

  lemma CrossedTexts(b: Bridge, local: nat, local': nat, target: nat, target': nat)
    requires b.portMappings == Crossed(local, local', target, target')
    ensures var m := b.portMappings;
      && Parses(b) && ParseNat(Str(target)) == Some(target) && ParseNat(Str(target')) == Some(target')
      && TargetText(m[0]) == TargetText(m[3]) == Str(target') && TargetText(m[1]) == TargetText(m[2]) == Str(target)
      && LocalPort(m[0]) == LocalPort(m[2]) == local && LocalPort(m[1]) == LocalPort(m[3]) == local'
  {
    StrHasNo(target, ':');
    StrHasNo(target', ':');
    ParseStr(target);
    ParseStr(target');
    MappingParses(local, Str(target'));
    MappingParses(local', Str(target));
    MappingParses(local, Str(target));
    MappingParses(local', Str(target'));
  }

  /** Nothing keeps this bridge from being deployed, but its teardown will not find it configured. */
  lemma CrossedDeployable(b: Bridge, local: nat, local': nat, target: nat, target': nat, ports: seq<nat>)
    requires b.portMappings == Crossed(local, local', target, target') && local != local' && target != target'
    requires RulesOf(b).Some? && target in ports && target' in ports
    ensures Parses(b) && Deployable(b, ports) && !FreesItself(b)
  {
    CrossedTexts(b, local, local', target, target');
    var m := b.portMappings;
    if Str(target) == Str(target') {
      StrInjective(target, target');
    }
    LastOfTwo(m, Str(target), 1, 2);
    LastOfTwo(m, Str(target'), 0, 3);
    assert !Wins(b, m[0]) && !Wins(b, m[1]);
    assert LocalPort(m[0]) == LocalPort(m[2]) && MapsBefore(b, 2, LocalPort(m[2]));
    assert LocalPort(m[1]) == LocalPort(m[3]) && MapsBefore(b, 3, LocalPort(m[3]));
  }

  lemma LastOfTwo(mappings: seq<string>, text: string, i: nat, j: nat)
    requires i < j < |mappings| && TargetText(mappings[j]) == text
    requires forall k {:trigger mappings[k]} :: 0 <= k < |mappings| && k != i && k != j ==> TargetText(mappings[k]) != text
    ensures LastWith(mappings, text, |mappings|) == j
  {
    var k := LastWith(mappings, text, |mappings|);
    assert k >= j;
  }

  // ----- Whose entry an intact mapping relies on -----

  /** The bridge's own entry on the target port has this endpoint. */
  predicate OwnEntryIs(config: seq<Proxy>, p: nat, name: string, endpoint: string) {
    match FindProxy(PortsOf(config), p)
    case None => false
    case Some(i) => Lookup(config[i].bridges, name).Some? && Lookup(config[i].bridges, name).value.endpoint == endpoint
  }

  /**
    The entry of an intact mapping itself leads to the mapping's route if and only if the stored endpoint is the
    route's URL or no other bridge has that URL on the port; else it is another bridge's entry that makes the mapping
    intact.
   */
  lemma OwnEntryIff(t: Table, base: seq<Proxy>, bridges: seq<Bridge>, me: nat, config: seq<Proxy>, i: nat, url: string)
    requires TableOk(t) && Unbridged(base) && DistinctBridges(bridges) && me < |bridges| && Rebuilt(base, bridges, me, config)
    requires i < |bridges[me].portMappings|
    requires var b := bridges[me];
      && Reachable(t, config, b, b.destinationIP, b.portMappings[i])
      && UrlIs(t, b.client, b.destinationIP, LocalPort(b.portMappings[i]), url)
    ensures var b, p := bridges[me], ParseNat(TargetText(bridges[me].portMappings[i])).value;
      && Str(p) in EndpointsOf(b)
      && (OwnEntryIs(config, p, b.name, url) <==>
           EndpointsOf(b)[Str(p)] == url || !OtherHas(bridges, me, PortsOf(base), p, url))
  {
    var b, mapping := bridges[me], bridges[me].portMappings[i];
    NotFaultyMaps(b, PortsOf(base), i);
    ParsedTarget(mapping);
    var p := Target(mapping).value;
    MapsConverts(b, PortsOf(base), p);
    RebuiltHasIff(base, bridges, me, config, i, url);
    RebuiltEntries(base, bridges, None, config, p);
    OwnEntry(bridges, me, PortsOf(base), p, None);
    var found :| UrlIs(t, b.client, b.destinationIP, LocalPort(mapping), found) && ConfigHas(config, p, found, b.name);
    UrlUnique(t, b.client, b.destinationIP, LocalPort(mapping), found, url);
  }
}

/**
  What the routes of a bridge are: its port mappings, the operations of a setup and a teardown, the endpoints that a
  setup stores, and when a mapping is intact.
 */
module BridgeRoutes {
  import opened Wrappers
  import opened Text
  import opened Encoding
  import opened Table
  import opened Objects
  import opened Runs
  import opened CarrierConfig

  /** `local_port, target_port = port_mapping.split(":")`, `int(local_port)`; `None` where this raises. */
  function ParseMapping(mapping: string): Option<(nat, string)> {
    var parts := Split(mapping, ':');
    if |parts| != 2 then None
    else
      match ParseNat(parts[0])
      case Some(n) => Some((n, parts[1]))
      case None => None
  }

  /** Two ports with one colon between them, of which the local one is a number. */
  lemma ParseMappingIff(mapping: string, local: nat, target: string)
    ensures ParseMapping(mapping) == Some((local, target)) <==>
      exists text :: ':' !in text && ':' !in target && mapping == text + ":" + target && ParseNat(text) == Some(local)
  {
    if ParseMapping(mapping) == Some((local, target)) {
      TwoParts(mapping, ':');
      var parts := Split(mapping, ':');
      assert mapping == parts[0] + ":" + parts[1];
    }
    if text :| ':' !in text && ':' !in target && mapping == text + ":" + target && ParseNat(text) == Some(local) {
      SplitAt(text, ':', target);
      SplitWhole(target, ':');
      assert mapping == text + [':'] + target;
    }
  }

  function LocalPort(mapping: string): nat {
    match ParseMapping(mapping)
    case Some(m) => m.0
    case None => 0
  }

  function TargetText(mapping: string): string {
    match ParseMapping(mapping)
    case Some(m) => m.1
    case None => ""
  }

  /** The adds of a setup, one for each mapping, each with the suffix drawn for it. */
  function AddOps(b: Bridge, ip: string, suffixes: seq<string>): seq<Op>
    requires |suffixes| == |b.portMappings|
  {
    seq(|suffixes|, i requires 0 <= i < |suffixes| => Add(Row(b.client, suffixes[i], ip, LocalPort(b.portMappings[i]))))
  }

  function RemoveOps(b: Bridge, ip: string): seq<Op> {
    seq(|b.portMappings|, i requires 0 <= i < |b.portMappings| => Remove(ip, LocalPort(b.portMappings[i])))
  }

  /** Suffixes that `random.choices` may draw for the bridge: no dashes, unused, pairwise distinct. */
  ghost predicate FreshSuffixes(t: Table, client: string, suffixes: seq<string>) {
    && (forall i :: 0 <= i < |suffixes| ==> '-' !in suffixes[i])
    && (forall i, p :: 0 <= i < |suffixes| && p in t ==> t[p].peer != client || t[p].suffix != suffixes[i])
    && (forall i, j :: 0 <= i < j < |suffixes| ==> suffixes[i] != suffixes[j])
  }

  lemma {:induction false} LongerThanAll(t: Table, ports: set<nat>) returns (m: nat)
    requires ports <= t.Keys
    ensures forall p :: p in ports ==> |t[p].suffix| < m
    decreases |ports|
  {
    m := 0;
    if ports != {} {
      var p :| p in ports;
      m := LongerThanAll(t, ports - {p});
      m := if |t[p].suffix| < m then m else |t[p].suffix| + 1;
    }
  }

  /** Whatever is stored, there are suffixes to draw. */
  lemma SuffixesExist(t: Table, client: string, n: nat) returns (suffixes: seq<string>)
    ensures |suffixes| == n && FreshSuffixes(t, client, suffixes)
  {
    var m := LongerThanAll(t, t.Keys);
    suffixes := seq(n, i requires 0 <= i < n => seq(m + i, _ => 'a'));
    assert forall i :: 0 <= i < n ==> |suffixes[i]| == m + i;
  }

  /** The address belongs to this client. */
  ghost predicate AddressOwned(t: Table, client: string, ip: string) {
    forall p :: p in t && t[p].ip == ip ==> t[p].peer == client
  }

  /** `url` is the one under which the destination is reachable in the cluster. */
  ghost predicate UrlIs(t: Table, client: string, ip: string, port: nat, url: string) {
    exists p :: p in t && ServesPeer(t[p], client, ip, port) && url == Url(p)
  }

  lemma UrlUnique(t: Table, client: string, ip: string, port: nat, url: string, url': string)
    requires TableOk(t) && UrlIs(t, client, ip, port, url) && UrlIs(t, client, ip, port, url')
    ensures url == url'
  {
    var p :| p in t && ServesPeer(t[p], client, ip, port) && url == Url(p);
    var q :| q in t && ServesPeer(t[q], client, ip, port) && url' == Url(q);
    assert p == q;
  }

  lemma {:induction false} RunAppend(t: Table, ops: seq<Op>, op: Op)
    ensures Run(t, ops + [op]) == Apply(Run(t, ops), op)
    decreases |ops|
  {
    if ops == [] {
      assert [op][1..] == [];
      assert [] + [op] == [op];
    } else {
      assert (ops + [op])[0] == ops[0] && (ops + [op])[1..] == ops[1..] + [op];
      RunAppend(Apply(t, ops[0]), ops[1..], op);
    }
  }

  /** `proxy_route_exists` on a configuration: the bridge is entered at the port, and some bridge there has the endpoint. */
  predicate ConfigHas(config: seq<Proxy>, p: nat, endpoint: string, name: string) {
    match FindProxy(PortsOf(config), p)
    case None => false
    case Some(i) =>
      && Lookup(config[i].bridges, name).Some?
      && exists j :: 0 <= j < |config[i].bridges| && config[i].bridges[j].bridge.endpoint == endpoint
  }

  /** The destination of a mapping exists, and the bridge is configured for it: what `is_intact` asks of one mapping. */
  ghost predicate Reachable(t: Table, config: seq<Proxy>, b: Bridge, ip: string, mapping: string) {
    && ParseMapping(mapping).Some? && ParseNat(TargetText(mapping)).Some?
    && exists url :: UrlIs(t, b.client, ip, LocalPort(mapping), url)
        && ConfigHas(config, ParseNat(TargetText(mapping)).value, url, b.name)
  }

  ghost predicate AllReachable(t: Table, config: seq<Proxy>, b: Bridge, ip: string, n: nat) {
    n <= |b.portMappings| &&
    forall i {:trigger b.portMappings[i]} :: 0 <= i < n ==> Reachable(t, config, b, ip, b.portMappings[i])
  }

  ghost predicate Intact(t: Table, config: seq<Proxy>, b: Bridge) {
    AllReachable(t, config, b, b.destinationIP, |b.portMappings|)
  }

  /** The bridge is entered nowhere in the configuration. */
  predicate NotEntered(config: seq<Proxy>, name: string) {
    forall i :: 0 <= i < |config| ==> Lookup(config[i].bridges, name).None?
  }

  /** One of the first `n` mappings has this local port. */
  ghost predicate MapsBefore(b: Bridge, n: nat, port: nat)
    requires n <= |b.portMappings|
  {
    exists i :: 0 <= i < n && LocalPort(b.portMappings[i]) == port
  }

  /** One of the first `n` mappings is configured, and none before it has taken away its route. */
  ghost predicate SomeConfigured(t: Table, config: seq<Proxy>, b: Bridge, ip: string, n: nat)
    requires n <= |b.portMappings|
  {
    exists i {:trigger Reachable(t, config, b, ip, b.portMappings[i])} :: 0 <= i < n
      && !MapsBefore(b, i, LocalPort(b.portMappings[i])) && Reachable(t, config, b, ip, b.portMappings[i])
  }

  // ----- Target ports: `clusterEndpoint` is keyed by their texts, the configuration by their numbers -----

  /** Every mapping has two ports, the local one a number. */
  predicate Parses(b: Bridge) {
    forall i {:trigger b.portMappings[i]} :: 0 <= i < |b.portMappings| ==> ParseMapping(b.portMappings[i]).Some?
  }

  predicate SameTarget(mapping: string, mapping': string) {
    ParseNat(TargetText(mapping)).Some? && ParseNat(TargetText(mapping)) == ParseNat(TargetText(mapping'))
  }

  /** Mappings to one target port share the local port. */
  predicate OneLocalPort(b: Bridge) {
    forall i, j {:trigger b.portMappings[i], b.portMappings[j]} ::
      0 <= i < |b.portMappings| && 0 <= j < |b.portMappings| && SameTarget(b.portMappings[i], b.portMappings[j]) ==>
      LocalPort(b.portMappings[i]) == LocalPort(b.portMappings[j])
  }

  /** The last of the mappings with this target text, or -1. */
  function LastWith(mappings: seq<string>, text: string, n: nat): (k: int)
    requires n <= |mappings|
    ensures -1 <= k < n
    ensures k >= 0 ==> TargetText(mappings[k]) == text
    ensures forall i {:trigger mappings[i]} :: k < i < n ==> TargetText(mappings[i]) != text
  {
    if n == 0 then -1
    else if TargetText(mappings[n - 1]) == text then n - 1
    else LastWith(mappings, text, n - 1)
  }

  /** The bridge has endpoints for its own target texts only: `portMappings` cannot be updated. */
  ghost predicate OwnEndpoints(b: Bridge) {
    forall key {:trigger EndpointsOf(b)[key]} :: key in EndpointsOf(b) ==>
      LastWith(b.portMappings, key, |b.portMappings|) >= 0
  }

  /** Under the text stands the URL of the last of the first `n` mappings with it. */
  ghost predicate EndpointOfLast(t: Table, b: Bridge, ip: string, n: nat, text: string)
    requires n <= |b.portMappings|
  {
    var k := LastWith(b.portMappings, text, n);
    && k >= 0 && text in EndpointsOf(b)
    && UrlIs(t, b.client, ip, LocalPort(b.portMappings[k]), EndpointsOf(b)[text])
  }

  ghost predicate LastEndpoints(t: Table, b: Bridge, ip: string, n: nat) {
    n <= |b.portMappings| &&
    forall i {:trigger EndpointOfLast(t, b, ip, n, TargetText(b.portMappings[i]))} :: 0 <= i < n ==>
      EndpointOfLast(t, b, ip, n, TargetText(b.portMappings[i]))
  }

  ghost predicate AllPresent(t: Table, b: Bridge, ip: string, n: nat) {
    n <= |b.portMappings| &&
    forall i {:trigger b.portMappings[i]} :: 0 <= i < n ==> HasPeerDest(t, b.client, ip, LocalPort(b.portMappings[i]))
  }

  /** Every mapping up to `n` has its own URL stored under its target port. */
  ghost predicate EndpointsSet(t: Table, b: Bridge, ip: string, n: nat) {
    n <= |b.portMappings| &&
    forall i {:trigger b.portMappings[i]} :: 0 <= i < n ==> EndpointSet(t, b, ip, b.portMappings[i])
  }

  ghost predicate EndpointSet(t: Table, b: Bridge, ip: string, mapping: string) {
    && TargetText(mapping) in EndpointsOf(b)
    && UrlIs(t, b.client, ip, LocalPort(mapping), EndpointsOf(b)[TargetText(mapping)])
  }

  /** The target port is served, and one of the bridge's mappings writes it the way `str` does. */
  predicate DeployableMapping(b: Bridge, ports: seq<nat>, mapping: string) {
    && ParseMapping(mapping).Some? && RulesOf(b).Some?
    && match ParseNat(TargetText(mapping))
       case Some(p) => p in ports && LastWith(b.portMappings, Str(p), |b.portMappings|) >= 0
       case None => false
  }

  predicate Deployable(b: Bridge, ports: seq<nat>) {
    forall i {:trigger b.portMappings[i]} :: 0 <= i < |b.portMappings| ==> DeployableMapping(b, ports, b.portMappings[i])
  }

  /** The configuration was rebuilt from all bridges, and bridge `me` got through. */
  predicate Rebuilt(base: seq<Proxy>, bridges: seq<Bridge>, me: nat, config: seq<Proxy>)
    requires me < |bridges|
  {
    IsDeclared(base, bridges, None, config) && !Faulty(bridges[me], PortsOf(base))
  }

  lemma ParsedTarget(mapping: string)
    requires ParseMapping(mapping).Some?
    ensures Target(mapping) == ParseNat(TargetText(mapping))
  {
  }

  /** The entries of port `p` after a rebuild. */
  lemma RebuiltEntries(base: seq<Proxy>, bridges: seq<Bridge>, rm: Option<string>, config: seq<Proxy>, p: nat)
    requires Unbridged(base) && DistinctBridges(bridges) && IsDeclared(base, bridges, rm, config)
    requires p in PortsOf(base)
    ensures PortsOf(config) == PortsOf(base) && FindProxy(PortsOf(base), p).Some?
    ensures config[FindProxy(PortsOf(base), p).value].bridges == Expected(bridges, PortsOf(base), p, rm)
  {
    DeclaredFromEmpty(base, bridges, rm, config);
  }

  lemma OwnEntry(bridges: seq<Bridge>, me: nat, ports: seq<nat>, p: nat, rm: Option<string>)
    requires DistinctBridges(bridges) && me < |bridges| && Entered(bridges[me], ports, p, rm)
    ensures Lookup(Expected(bridges, ports, p, rm), bridges[me].name) == Some(EntryOf(bridges[me], ports, p).bridge)
  {
    var xs, ys := bridges[..me], bridges[me + 1..];
    assert bridges == xs + [bridges[me]] + ys;
    EntryIff(xs, bridges[me], ys, ports, p, rm);
  }

  /** The bridge excluded from a rebuild has no entry on any port. */
  lemma RebuiltLacks(base: seq<Proxy>, bridges: seq<Bridge>, name: string, config: seq<Proxy>, i: nat)
    requires Unbridged(base) && DistinctBridges(bridges) && i < |base|
    requires IsDeclared(base, bridges, Some(name), config)
    ensures Lookup(config[i].bridges, name).None?
  {
    DeclaredFromEmpty(base, bridges, Some(name), config);
    ExcludedUnnamed(bridges, PortsOf(base), base[i].port, name);
  }

  lemma {:induction false} ExcludedUnnamed(bridges: seq<Bridge>, ports: seq<nat>, p: nat, name: string)
    ensures Lookup(Expected(bridges, ports, p, Some(name)), name).None?
  {
    if bridges != [] {
      ExcludedUnnamed(bridges[1..], ports, p, name);
      LookupAppend(Single(bridges[0], ports, p, Some(name)), Expected(bridges[1..], ports, p, Some(name)), name);
    }
  }

  lemma NotFaultyMaps(b: Bridge, ports: seq<nat>, i: nat)
    requires !Faulty(b, ports) && i < |b.portMappings|
    ensures Target(b.portMappings[i]).Some? && Maps(b, ports, Target(b.portMappings[i]).value)
  {
    assert b.portMappings[..|b.portMappings|] == b.portMappings;
    GoodPrefixOf(b, ports, b.portMappings, |b.portMappings|);
    assert MappingOk(b, ports, b.portMappings[i]);
  }
}

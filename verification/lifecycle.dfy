/** What setups, teardowns and changes of destination do to the route table as a whole. */
module BridgeLifecycle {
  import opened Wrappers
  import opened Text
  import opened Encoding
  import opened Table
  import opened Objects
  import opened Collector
  import opened Runs
  import opened CarrierConfig
  import opened BridgeRoutes
  import opened BridgeController
  import opened Intactness
  import opened StowawayProvider
  import D = Dispatch

  ghost predicate OnlyAdds(ops: seq<Op>) { forall i :: 0 <= i < |ops| ==> ops[i].Add? }

  ghost predicate OnlyRemoves(ops: seq<Op>) { forall i :: 0 <= i < |ops| ==> ops[i].Remove? }

  ghost predicate AddedBy(ops: seq<Op>, row: Row) { exists i :: 0 <= i < |ops| && ops[i] == Add(row) }

  ghost predicate RemovedBy(ops: seq<Op>, row: Row) {
    exists i :: 0 <= i < |ops| && ops[i].Remove? && Serves(row, ops[i].ip, ops[i].port)
  }

  /** One of the bridge's mappings has this local port. */
  ghost predicate MapsLocal(b: Bridge, port: nat) { MapsBefore(b, |b.portMappings|, port) }

  /** Adds leave every row where it is and add nothing but their own rows. */
  lemma {:induction false} AddsFrame(t: Table, ops: seq<Op>)
    requires OnlyAdds(ops)
    ensures forall p :: p in t ==> p in Run(t, ops) && Run(t, ops)[p] == t[p]
    ensures forall p :: p in Run(t, ops) && p !in t ==> AddedBy(ops, Run(t, ops)[p])
    decreases |ops|
  {
    if ops != [] {
      var t', rest := Apply(t, ops[0]), ops[1..];
      AddsFrame(t', rest);
      forall p | p in Run(t, ops) && p !in t
        ensures AddedBy(ops, Run(t, ops)[p])
      {
        if p in t' {
          assert ops[0] == Add(t'[p]);
        } else {
          var i :| 0 <= i < |rest| && rest[i] == Add(Run(t', rest)[p]);
          assert ops[i + 1] == rest[i];
        }
      }
    }
  }

  /** Removes keep exactly the rows that none of them is about. */
  lemma {:induction false} RemovesExact(t: Table, ops: seq<Op>)
    requires OnlyRemoves(ops)
    ensures Run(t, ops) == map p | p in t && !RemovedBy(ops, t[p]) :: t[p]
    decreases |ops|
  {
    if ops != [] {
      var t', rest := Apply(t, ops[0]), ops[1..];
      RemovesExact(t', rest);
      forall p | p in t
        ensures RemovedBy(ops, t[p]) <==> Serves(t[p], ops[0].ip, ops[0].port) || RemovedBy(rest, t[p])
      {
        RemovedByStep(ops, t[p]);
      }
    }
  }

  lemma RemovedByStep(ops: seq<Op>, row: Row)
    requires ops != [] && ops[0].Remove?
    ensures RemovedBy(ops, row) <==> Serves(row, ops[0].ip, ops[0].port) || RemovedBy(ops[1..], row)
  {
    var rest := ops[1..];
    assert forall i :: 0 <= i < |rest| ==> rest[i] == ops[i + 1];
    if RemovedBy(ops, row) {
      var i :| 0 <= i < |ops| && ops[i].Remove? && Serves(row, ops[i].ip, ops[i].port);
      assert i > 0 ==> ops[i] == rest[i - 1];
    }
  }

  lemma RemovedByTeardown(b: Bridge, ip: string, row: Row)
    ensures RemovedBy(RemoveOps(b, ip), row) <==> row.ip == ip && MapsLocal(b, row.port)
  {
    var ops := RemoveOps(b, ip);
    if row.ip == ip && MapsLocal(b, row.port) {
      var i :| 0 <= i < |b.portMappings| && LocalPort(b.portMappings[i]) == row.port;
      assert ops[i] == Remove(ip, row.port);
    }
  }

  lemma AddedBySetup(b: Bridge, ip: string, suffixes: seq<string>, k: nat, row: Row)
    requires k <= |suffixes| == |b.portMappings| && AddedBy(AddOps(b, ip, suffixes)[..k], row)
    ensures row.peer == b.client && row.ip == ip && MapsLocal(b, row.port)
  {
    var i :| 0 <= i < k && AddOps(b, ip, suffixes)[..k][i] == Add(row);
    assert row == Row(b.client, suffixes[i], ip, LocalPort(b.portMappings[i]));
  }

  /** Teardown removes exactly the rows for the destination on the bridge's local ports. */
  lemma TeardownExact(t: Table, b: Bridge, ip: string)
    ensures Run(t, RemoveOps(b, ip)) == map p | p in t && !(t[p].ip == ip && MapsLocal(b, t[p].port)) :: t[p]
  {
    RemovesExact(t, RemoveOps(b, ip));
    forall p | p in t
      ensures RemovedBy(RemoveOps(b, ip), t[p]) <==> t[p].ip == ip && MapsLocal(b, t[p].port)
    {
      RemovedByTeardown(b, ip, t[p]);
    }
  }

  /** None of the bridge's destinations is present. */
  ghost predicate NonePresent(t: Table, b: Bridge, ip: string) {
    forall p :: p in t && t[p].ip == ip ==> !MapsLocal(b, t[p].port)
  }

  /** Teardown undoes setup, also a setup that raised half way. */
  lemma TeardownUndoesSetup(t: Table, b: Bridge, ip: string, suffixes: seq<string>, t': Table)
    requires |suffixes| == |b.portMappings| && NonePresent(t, b, ip)
    requires PartlyRun(t, AddOps(b, ip, suffixes), t')
    ensures Run(t', RemoveOps(b, ip)) == t
  {
    var k :| 0 <= k <= |suffixes| && t' == Run(t, AddOps(b, ip, suffixes)[..k]);
    var ops := AddOps(b, ip, suffixes)[..k];
    AddsFrame(t, ops);
    TeardownExact(t', b, ip);
    forall p | p in t' && p !in t
      ensures t'[p].ip == ip && MapsLocal(b, t'[p].port)
    {
      AddedBySetup(b, ip, suffixes, k, t'[p]);
    }
  }

  /** A second teardown changes nothing. */
  lemma TeardownTwice(t: Table, b: Bridge, ip: string)
    ensures Run(Run(t, RemoveOps(b, ip)), RemoveOps(b, ip)) == Run(t, RemoveOps(b, ip))
  {
    TeardownExact(t, b, ip);
    TeardownExact(Run(t, RemoveOps(b, ip)), b, ip);
  }

  /** Neither does a second setup, whatever suffixes it would have drawn. */
  lemma SetupTwice(t: Table, b: Bridge, ip: string, suffixes: seq<string>)
    requires |suffixes| == |b.portMappings| && EndpointsSet(t, b, ip, |b.portMappings|)
    ensures Run(t, AddOps(b, ip, suffixes)) == t
  {
    var ops := AddOps(b, ip, suffixes);
    forall i | 0 <= i < |ops|
      ensures Apply(t, ops[i]) == t
    {
      assert EndpointSet(t, b, ip, b.portMappings[i]);
    }
    RunOfNothing(t, ops);
  }

  lemma {:induction false} RunOfNothing(t: Table, ops: seq<Op>)
    requires forall i :: 0 <= i < |ops| ==> Apply(t, ops[i]) == t
    ensures Run(t, ops) == t
    decreases |ops|
  {
    if ops != [] {
      assert forall i :: 0 <= i < |ops[1..]| ==> ops[1..][i] == ops[i + 1];
      RunOfNothing(t, ops[1..]);
    }
  }

  /**
    A teardown takes the route of another bridge with it exactly if both have the address and a local port in
    common: the route is shared.
   */
  lemma TeardownSparesIff(t: Table, b: Bridge, ip: string, other: Bridge, port: nat)
    requires HasPeerDest(t, other.client, other.destinationIP, port)
    ensures HasPeerDest(Run(t, RemoveOps(b, ip)), other.client, other.destinationIP, port) <==>
      !(other.destinationIP == ip && MapsLocal(b, port))
  {
    TeardownExact(t, b, ip);
    var t' := Run(t, RemoveOps(b, ip));
    var p :| p in t && ServesPeer(t[p], other.client, other.destinationIP, port);
    if !(other.destinationIP == ip && MapsLocal(b, port)) {
      assert p in t' && ServesPeer(t'[p], other.client, other.destinationIP, port);
    }
    if q :| q in t' && ServesPeer(t'[q], other.client, other.destinationIP, port) {
      assert !(t[q].ip == ip && MapsLocal(b, t[q].port));
    }
  }

  /** What a change of destination leaves behind: `t` before, `t'` after. */
  ghost predicate Moved(t: Table, b: Bridge, from: string, to: string, t': Table) {
    && (forall p :: p in t && !(t[p].ip == from && MapsLocal(b, t[p].port)) ==> p in t' && t'[p] == t[p])
    && (forall p :: p in t' ==>
        || (p in t && t'[p] == t[p] && !(t[p].ip == from && MapsLocal(b, t[p].port)))
        || (t'[p].peer == b.client && t'[p].ip == to && MapsLocal(b, t'[p].port)))
    && (from != to ==> NonePresent(t', b, from))
  }

  /**
    A change of destination touches no other route, even when the new routes take over the ports that the old ones
    have freed, and leaves nothing for the old address on the mapped ports.
   */
  lemma DestinationChange(t: Table, b: Bridge, from: string, to: string, suffixes: seq<string>, t': Table)
    requires |suffixes| == |b.portMappings|
    requires PartlyRun(Run(t, RemoveOps(b, from)), AddOps(b, to, suffixes), t')
    ensures Moved(t, b, from, to, t')
  {
    var t1 := Run(t, RemoveOps(b, from));
    var k :| 0 <= k <= |suffixes| && t' == Run(t1, AddOps(b, to, suffixes)[..k]);
    TeardownExact(t, b, from);
    AddsFrame(t1, AddOps(b, to, suffixes)[..k]);
    forall p | p in t' && p !in t1
      ensures t'[p].peer == b.client && t'[p].ip == to && MapsLocal(b, t'[p].port)
    {
      AddedBySetup(b, to, suffixes, k, t'[p]);
    }
  }

  /** Exactly one route for the address on each local port that the bridge maps. */
  ghost predicate OneRouteEach(t: Table, b: Bridge, ip: string) {
    forall port :: MapsLocal(b, port) ==>
      exists p :: p in t && ServesPeer(t[p], b.client, ip, port) && forall q :: q in t && Serves(t[q], ip, port) ==> q == p
  }

  lemma SetUpHasOneRouteEach(t: Table, b: Bridge, ip: string)
    requires TableOk(t) && EndpointsSet(t, b, ip, |b.portMappings|)
    ensures OneRouteEach(t, b, ip)
  {
    forall port | MapsLocal(b, port)
      ensures exists p :: p in t && ServesPeer(t[p], b.client, ip, port) && forall q :: q in t && Serves(t[q], ip, port) ==> q == p
    {
      var i :| 0 <= i < |b.portMappings| && LocalPort(b.portMappings[i]) == port;
      assert EndpointSet(t, b, ip, b.portMappings[i]);
      var p :| p in t && ServesPeer(t[p], b.client, ip, port);
      assert forall q :: q in t && Serves(t[q], ip, port) ==> q == p;
    }
  }

  // ----- The collector and live bridges -----

  /** A route whose URL a listed bridge of the same client and address has stored is never taken for debris. */
  lemma LiveRouteIsNoDebris(bridges: seq<Bridge>, me: nat, row: Row, p: nat, key: string)
    requires me < |bridges| && bridges[me].client == row.peer && bridges[me].destinationIP == row.ip
    requires key in EndpointsOf(bridges[me]) && EndpointsOf(bridges[me])[key] == Url(p)
    ensures !JudgeRow(bridges, row, p).Debris?
  {
    UrlBacks(bridges[me], row, p, key);
    BackedIsNoDebris(bridges, me, row, p);
  }

  lemma {:induction false} BackedIsNoDebris(bridges: seq<Bridge>, me: nat, row: Row, p: nat)
    requires me < |bridges| && Backs(bridges[me], row, p)
    ensures !JudgeRow(bridges, row, p).Debris?
  {
    if me > 0 {
      assert bridges[1..][me - 1] == bridges[me];
      BackedIsNoDebris(bridges[1..], me - 1, row, p);
    }
  }

  /**
    A route to an address with a colon or a comma, such as one of IPv6, is taken for debris, even if all bridges of its
    client are on that address and have its URL stored.
   */
  lemma ForeignAddressIsDebris(bridges: seq<Bridge>, row: Row, p: nat)
    requires !CleanIp(row.ip) && '-' !in row.suffix
    requires forall i :: 0 <= i < |bridges| && bridges[i].client == row.peer ==> bridges[i].destinationIP == row.ip
    ensures JudgeRoute(bridges, RouteKey(row), RouteValue(row, p)).Debris?
  {
    IpRoundTrip(row.ip, row.port, p);
    PeerDecodes(row);
    NobodyThere(bridges, row.peer, IpOf(RouteValue(row, p)), ProxyPortText(RouteValue(row, p)));
  }

  lemma {:induction false} NobodyThere(bridges: seq<Bridge>, peer: string, ip: string, portText: string)
    requires forall i :: 0 <= i < |bridges| ==> !Addresses(bridges[i], peer, ip)
    ensures Judge(bridges, peer, ip, portText).Debris?
  {
    if bridges != [] {
      assert forall i :: 0 <= i < |bridges[1..]| ==> bridges[1..][i] == bridges[i + 1];
      NobodyThere(bridges[1..], peer, ip, portText);
    }
  }

  /** After its setup a bridge keeps all its routes through a collection, as long as it is in the list. */
  lemma CollectKeepsEndpoints(t: Table, bridges: seq<Bridge>, me: nat)
    requires me < |bridges|
    requires EndpointsSet(t, bridges[me], bridges[me].destinationIP, |bridges[me].portMappings|)
    ensures EndpointsSet(Apply(t, Collect(bridges)), bridges[me], bridges[me].destinationIP, |bridges[me].portMappings|)
  {
    var b, t' := bridges[me], Apply(t, Collect(bridges));
    forall i | 0 <= i < |b.portMappings|
      ensures EndpointSet(t', b, b.destinationIP, b.portMappings[i])
    {
      var mapping := b.portMappings[i];
      assert EndpointSet(t, b, b.destinationIP, mapping);
      var p :| p in t && ServesPeer(t[p], b.client, b.destinationIP, LocalPort(mapping))
        && EndpointsOf(b)[TargetText(mapping)] == Url(p);
      LiveRouteIsNoDebris(bridges, me, t[p], p, TargetText(mapping));
      assert p in t' && t'[p] == t[p];
    }
  }

  /** An operation of somebody else: no removal of the bridge's destinations, no collection that does not know it. */
  ghost predicate Spares(op: Op, b: Bridge) {
    match op
    case Add(_) => true
    case Remove(ip, port) => !(ip == b.destinationIP && MapsLocal(b, port))
    case Collect(bridges) => b in bridges
  }

  lemma SparedStep(t: Table, op: Op, b: Bridge)
    requires Spares(op, b) && EndpointsSet(t, b, b.destinationIP, |b.portMappings|)
    ensures EndpointsSet(Apply(t, op), b, b.destinationIP, |b.portMappings|)
  {
    match op
    case Collect(bridges) =>
      var me :| 0 <= me < |bridges| && bridges[me] == b;
      CollectKeepsEndpoints(t, bridges, me);
    case _ =>
      forall i | 0 <= i < |b.portMappings|
        ensures EndpointSet(Apply(t, op), b, b.destinationIP, b.portMappings[i])
      {
        var mapping := b.portMappings[i];
        assert EndpointSet(t, b, b.destinationIP, mapping) && MapsLocal(b, LocalPort(mapping));
        var p :| p in t && ServesPeer(t[p], b.client, b.destinationIP, LocalPort(mapping))
          && EndpointsOf(b)[TargetText(mapping)] == Url(p);
        assert p in Apply(t, op) && Apply(t, op)[p] == t[p];
      }
  }

  /** Once set up, a bridge keeps every route and the URLs stored for it through any run of others' operations. */
  lemma {:induction false} EndpointsStay(t: Table, ops: seq<Op>, b: Bridge)
    requires EndpointsSet(t, b, b.destinationIP, |b.portMappings|)
    requires forall i {:trigger ops[i]} :: 0 <= i < |ops| ==> Spares(ops[i], b)
    ensures EndpointsSet(Run(t, ops), b, b.destinationIP, |b.portMappings|)
    decreases |ops|
  {
    if ops != [] {
      SparedStep(t, ops[0], b);
      assert forall i :: 0 <= i < |ops[1..]| ==> ops[1..][i] == ops[i + 1];
      EndpointsStay(Apply(t, ops[0]), ops[1..], b);
    }
  }

  // ----- What a teardown leaves in the configuration -----

  /** No entry of the bridge on any port, and for the others what a rebuild of the list without it yields. */
  lemma TornDownConfig(base: seq<Proxy>, bridges: seq<Bridge>, me: nat, config: seq<Proxy>)
    requires Unbridged(base) && DistinctBridges(bridges) && me < |bridges|
    requires IsDeclared(base, bridges, Some(bridges[me].name), config)
    ensures forall i :: 0 <= i < |config| ==> Lookup(config[i].bridges, bridges[me].name).None?
    ensures IsDeclared(base, bridges[..me] + bridges[me + 1..], None, config)
  {
    var xs, ys, ports := bridges[..me], bridges[me + 1..], PortsOf(base);
    assert bridges == xs + [bridges[me]] + ys;
    forall i | 0 <= i < |config|
      ensures Lookup(config[i].bridges, bridges[me].name).None?
      ensures Expected(bridges, ports, base[i].port, Some(bridges[me].name)) == Expected(xs + ys, ports, base[i].port, None)
    {
      RebuiltLacks(base, bridges, bridges[me].name, config, i);
      ExcludeIsDelete(xs, bridges[me], ys, ports, base[i].port);
    }
  }

  // ----- From a request to the client's container -----

  /**
    From end to end: a request on a port that the bridge maps, and that no bridge before it takes, goes to a proxy
    Service behind which a route leads to the bridge's client, its address and the local port of that mapping.
   */
  lemma RequestReachesClient(t: Table, base: seq<Proxy>, bridges: seq<Bridge>, me: nat, config: seq<Proxy>, i: nat,
                             req: D.Request, re: D.Matcher)
    requires SetUp(t, base, bridges, me, config) && OneLocalPort(bridges[me]) && i < |bridges[me].portMappings|
    requires Target(bridges[me].portMappings[i]).Some? &&
      D.TakenFirstBy(bridges, me, PortsOf(base), Target(bridges[me].portMappings[i]).value, None, req, re)
    ensures var b, p := bridges[me], Target(bridges[me].portMappings[i]).value;
      && FindProxy(PortsOf(base), p).Some? && FindProxy(PortsOf(base), p).value < |config|
      && exists q ::
        (q in t && ServesPeer(t[q], b.client, b.destinationIP, LocalPort(b.portMappings[i]))
         && D.FirstHit(config[FindProxy(PortsOf(base), p).value].bridges, req, re) == D.Peer(Url(q)))
  {
    var b, mapping := bridges[me], bridges[me].portMappings[i];
    var p := Target(mapping).value;
    NotFaultyMaps(b, PortsOf(base), i);
    MapsConverts(b, PortsOf(base), p);
    forall j | 0 <= j < |b.portMappings|
      ensures ParseNat(TargetText(b.portMappings[j])).Some?
    {
      FaultlessTargets(b, PortsOf(base), j);
    }
    OwnUrlsStored(t, b, b.destinationIP);
    EndpointLeads(t, b, i);
    RebuiltEntries(base, bridges, None, config, p);
    D.RoutedToFirst(bridges, PortsOf(base), p, None, req, re);
  }

  /** The endpoint under the canonical text of a mapping's target port is the URL of the mapping's own route. */
  lemma EndpointLeads(t: Table, b: Bridge, i: nat)
    requires i < |b.portMappings| && OneLocalPort(b) && OwnEndpoints(b)
    requires EndpointsSet(t, b, b.destinationIP, |b.portMappings|)
    requires ParseMapping(b.portMappings[i]).Some? && Target(b.portMappings[i]).Some?
    requires Str(Target(b.portMappings[i]).value) in EndpointsOf(b)
    ensures UrlIs(t, b.client, b.destinationIP, LocalPort(b.portMappings[i]), EndpointsOf(b)[Str(Target(b.portMappings[i]).value)])
  {
    var mapping, p := b.portMappings[i], Target(b.portMappings[i]).value;
    ParsedTarget(mapping);
    ParseStr(p);
    var k := LastWith(b.portMappings, Str(p), |b.portMappings|);
    assert EndpointsOf(b)[Str(p)] == EndpointsOf(b)[Str(p)];
    assert SameTarget(mapping, b.portMappings[k]);
    assert EndpointSet(t, b, b.destinationIP, b.portMappings[k]);
  }

  // ----- An intact bridge whose own entry leads elsewhere -----

  lemma FirstPorts()
    ensures FreePort({}) == Some(10000) && FreePort({10000}) == Some(10001)
  {
    FirstFitBound({10000});
  }

  /** The mapping of two bridges of one client to one target port, with the endpoint that each has stored. */
  function Twin(name: string, client: string, ip: string, local: nat, target: nat, url: string): Bridge {
    Bridge(name, client, ip, [MappingText(local, Str(target))], Some(map[Str(target) := url]), Some([]))
  }

  /** The shared route on port 10000 goes with the second twin, another client takes the port, the second comes back. */
  function TwinOps(client: string, ip: string, local: nat, other: Row): seq<Op> {
    [Remove(ip, local), Add(other), Add(Row(client, "second", ip, local))]
  }

  lemma TwinTable(client: string, ip: string, local: nat, other: Row)
    requires other.ip != ip
    ensures Run(map[10000 := Row(client, "first", ip, local)], TwinOps(client, ip, local, other))
      == map[10000 := other, 10001 := Row(client, "second", ip, local)]
  {
    var t: Table := map[10000 := Row(client, "first", ip, local)];
    var second := Row(client, "second", ip, local);
    FirstPorts();
    var ops := TwinOps(client, ip, local, other);
    var t1: Table, t2: Table, t3: Table := map[], map[10000 := other], map[10000 := other, 10001 := second];
    assert t1.Keys == {} && t2.Keys == {10000};
    assert Apply(t, ops[0]) == t1;
    assert Apply(t1, ops[1]) == t2;
    assert Apply(t2, ops[2]) == t3;
    assert ops[1..] == [ops[1], ops[2]] && ops[1..][1..] == [ops[2]] && ops[1..][1..][1..] == [];
    assert Run(t, ops) == Run(t1, ops[1..]) == Run(t2, ops[1..][1..]) == Run(t3, []);
  }

  /**
    After that the first twin passes as intact, by the entry of the second, although its own entry still leads to
    port 10000, which is now the other client's.
   */
  lemma IntactByItsTwin(client: string, ip: string, local: nat, target: nat, other: Row)
    requires other.ip != ip
    ensures var first, second := Twin("first", client, ip, local, target, Url(10000)), Twin("second", client, ip, local, target, Url(10001));
      var t := Run(map[10000 := Row(client, "first", ip, local)], TwinOps(client, ip, local, other));
      forall config :: IsDeclared([Proxy(target, [], [])], [first, second], None, config) ==>
        && Intact(t, config, first) && OwnEntryIs(config, target, "first", Url(10000))
        && 10000 in t && t[10000] == other
  {
    var first, second := Twin("first", client, ip, local, target, Url(10000)), Twin("second", client, ip, local, target, Url(10001));
    TwinTable(client, ip, local, other);
    var t: Table := map[10000 := other, 10001 := Row(client, "second", ip, local)];
    assert UrlIs(t, client, ip, local, Url(10001)) by {
      assert 10001 in t && ServesPeer(t[10001], client, ip, local);
    }
    forall config | IsDeclared([Proxy(target, [], [])], [first, second], None, config)
      ensures Intact(t, config, first) && OwnEntryIs(config, target, "first", Url(10000))
    {
      TwinIntact(t, client, ip, local, target, Url(10000), Url(10001), config);
    }
  }

  lemma TwinIntact(t: Table, client: string, ip: string, local: nat, target: nat, url: string, url': string, config: seq<Proxy>)
    requires var first, second := Twin("first", client, ip, local, target, url), Twin("second", client, ip, local, target, url');
      IsDeclared([Proxy(target, [], [])], [first, second], None, config)
    requires UrlIs(t, client, ip, local, url')
    ensures Intact(t, config, Twin("first", client, ip, local, target, url)) && OwnEntryIs(config, target, "first", url)
  {
    var first, second := Twin("first", client, ip, local, target, url), Twin("second", client, ip, local, target, url');
    TwinMaps("first", client, ip, local, target, url);
    TwinMaps("second", client, ip, local, target, url');
    TwinEntries(target, first, second, config, url, url');
  }

  lemma TwinEntries(target: nat, first: Bridge, second: Bridge, config: seq<Proxy>, url: string, url': string)
    requires first.name != second.name && |first.portMappings| > 0 && Target(first.portMappings[0]) == Some(target)
    requires !Faulty(first, [target]) && Maps(first, [target], target) && Maps(second, [target], target)
    requires EntryOf(first, [target], target).bridge.endpoint == url && EntryOf(second, [target], target).bridge.endpoint == url'
    requires IsDeclared([Proxy(target, [], [])], [first, second], None, config)
    ensures ConfigHas(config, target, url', first.name) && OwnEntryIs(config, target, first.name, url)
  {
    var base, bridges := [Proxy(target, [], [])], [first, second];
    assert PortsOf(base) == [target];
    RebuiltHasIff(base, bridges, 0, config, 0, url');
    assert HasEntry(bridges, 1, [target], target, url');
    assert OtherHas(bridges, 0, [target], target, url');
    RebuiltEntries(base, bridges, None, config, target);
    OwnEntry(bridges, 0, [target], target, None);
  }

  lemma TwinMaps(name: string, client: string, ip: string, local: nat, target: nat, url: string)
    ensures var b := Twin(name, client, ip, local, target, url);
      && Parses(b) && LocalPort(b.portMappings[0]) == local && ParseNat(TargetText(b.portMappings[0])) == Some(target)
      && Target(b.portMappings[0]) == Some(target) && !Faulty(b, [target])
      && Maps(b, [target], target) && EntryOf(b, [target], target).bridge.endpoint == url
  {
    var b := Twin(name, client, ip, local, target, url);
    StrHasNo(target, ':');
    MappingParses(local, Str(target));
    ParsedTarget(b.portMappings[0]);
    ParseStr(target);
    assert MappingOk(b, [target], b.portMappings[0]);
    NotFaultyMaps(b, [target], 0);
  }
}

/** Several bridges on one mount: what the handlers of the others do to a bridge that has been set up. */
module Cohabitation {
  import opened Wrappers
  import opened Text
  import opened Table
  import opened Objects
  import opened Runs
  import opened CarrierConfig
  import opened BridgeRoutes
  import opened BridgeController
  import opened BridgeLifecycle

  /** Route table, bridges of the mount and configuration of its Pods. */
  datatype Snapshot = Snapshot(t: Table, bridges: seq<Bridge>, config: seq<Proxy>)

  /**
    What the handlers are made of: setup and teardown of a bridge, complete or raised half way, the change of a
    destination in an object, and a collection.
   */
  datatype Handled =
    | SetsUp(k: nat, ip: string, suffixes: seq<string>)
    | TearsDown(k: nat, ip: string)
    | Readdresses(k: nat, ip: string)
    | Collects

  ghost predicate HandlerStep(base: seq<Proxy>, s: Snapshot, h: Handled, s': Snapshot) {
    match h
    case SetsUp(k, ip, suffixes) =>
      && k < |s.bridges| && |suffixes| == |s.bridges[k].portMappings|
      && SetUpStep(base, s.t, s.bridges, s.config, k, ip, suffixes, s'.t, s'.bridges, s'.config)
    case TearsDown(k, ip) =>
      k < |s.bridges| && s'.bridges == s.bridges && TeardownStep(base, s.t, s.bridges, s.config, k, ip, s'.t, s'.config)
    case Readdresses(k, ip) =>
      k < |s.bridges| && s' == s.(bridges := s.bridges[k := s.bridges[k].(destinationIP := ip)])
    case Collects => s' == s.(t := Apply(s.t, Collect(s.bridges)))
  }

  /** Two bridges have a route in common. */
  ghost predicate SharesRoute(other: Bridge, ip: string, b: Bridge) {
    ip == b.destinationIP && exists port :: MapsLocal(other, port) && MapsLocal(b, port)
  }

  /** The handler is that of another bridge, and does not tear down a shared route. */
  ghost predicate IsOthers(s: Snapshot, h: Handled, me: nat)
    requires me < |s.bridges|
  {
    match h
    case SetsUp(k, _, _) => k != me
    case TearsDown(k, ip) => k != me && (k < |s.bridges| ==> !SharesRoute(s.bridges[k], ip, s.bridges[me]))
    case Readdresses(k, _) => k != me
    case Collects => true
  }

  /** The bridge's own entry on the mapping's target port leads to the mapping's own route. */
  ghost predicate EntryLeads(config: seq<Proxy>, b: Bridge, mapping: string) {
    && ParseNat(TargetText(mapping)).Some?
    && var p := ParseNat(TargetText(mapping)).value;
    && Str(p) in EndpointsOf(b) && ConfigHas(config, p, EndpointsOf(b)[Str(p)], b.name)
  }

  /** A bridge that is set up, with one local port for each target port, and that compiles. */
  ghost predicate Sound(base: seq<Proxy>, s: Snapshot, me: nat) {
    && me < |s.bridges| && Unbridged(base) && DistinctBridges(s.bridges)
    && var b := s.bridges[me];
    && Parses(b) && OneLocalPort(b) && OwnEndpoints(b) && !Faulty(b, PortsOf(base))
    && EndpointsSet(s.t, b, b.destinationIP, |b.portMappings|)
    && forall i {:trigger EntryLeads(s.config, b, b.portMappings[i])} :: 0 <= i < |b.portMappings| ==>
        EntryLeads(s.config, b, b.portMappings[i])
  }

  lemma SoundIsIntact(base: seq<Proxy>, s: Snapshot, me: nat)
    requires Sound(base, s, me)
    ensures Intact(s.t, s.config, s.bridges[me])
  {
    var b := s.bridges[me];
    forall i | 0 <= i < |b.portMappings|
      ensures Reachable(s.t, s.config, b, b.destinationIP, b.portMappings[i])
    {
      assert EntryLeads(s.config, b, b.portMappings[i]);
      ParsedTarget(b.portMappings[i]);
      EndpointLeads(s.t, b, i);
    }
  }

  /** An active bridge as its handlers leave it is in this state, if it can be deployed. */
  lemma AsSetUpIsSound(base: seq<Proxy>, s: Snapshot, me: nat)
    requires TableOk(s.t) && Unbridged(base) && DistinctBridges(s.bridges) && me < |s.bridges|
    requires var b := s.bridges[me];
      && Intact(s.t, s.config, b) && EndpointsSet(s.t, b, b.destinationIP, |b.portMappings|)
      && OneLocalPort(b) && OwnEndpoints(b) && Deployable(b, PortsOf(base))
    ensures Sound(base, s, me)
  {
    var b := s.bridges[me];
    forall i | 0 <= i < |b.portMappings|
      ensures EntryLeads(s.config, b, b.portMappings[i]) && MappingOk(b, PortsOf(base), b.portMappings[i])
    {
      assert DeployableMapping(b, PortsOf(base), b.portMappings[i]);
      assert Reachable(s.t, s.config, b, b.destinationIP, b.portMappings[i]);
      CanonicalStored(s.t, b, PortsOf(base), i);
      StoredEntryLeads(s.t, s.config, b, i);
    }
  }

  lemma CanonicalStored(t: Table, b: Bridge, ports: seq<nat>, i: nat)
    requires i < |b.portMappings| && DeployableMapping(b, ports, b.portMappings[i])
    requires EndpointsSet(t, b, b.destinationIP, |b.portMappings|)
    ensures Str(ParseNat(TargetText(b.portMappings[i])).value) in EndpointsOf(b)
    ensures MappingOk(b, ports, b.portMappings[i])
  {
    var mapping := b.portMappings[i];
    ParsedTarget(mapping);
    var k := LastWith(b.portMappings, Str(ParseNat(TargetText(mapping)).value), |b.portMappings|);
    assert EndpointSet(t, b, b.destinationIP, b.portMappings[k]);
  }

  lemma StoredEntryLeads(t: Table, config: seq<Proxy>, b: Bridge, i: nat)
    requires TableOk(t) && i < |b.portMappings| && OneLocalPort(b) && OwnEndpoints(b)
    requires EndpointsSet(t, b, b.destinationIP, |b.portMappings|)
    requires Reachable(t, config, b, b.destinationIP, b.portMappings[i])
    requires Str(ParseNat(TargetText(b.portMappings[i])).value) in EndpointsOf(b)
    ensures EntryLeads(config, b, b.portMappings[i])
  {
    var mapping := b.portMappings[i];
    ParsedTarget(mapping);
    EndpointLeads(t, b, i);
    ReachableByUrl(t, config, b, mapping, EndpointsOf(b)[Str(ParseNat(TargetText(mapping)).value)]);
  }

  lemma ReachableByUrl(t: Table, config: seq<Proxy>, b: Bridge, mapping: string, url: string)
    requires TableOk(t) && Reachable(t, config, b, b.destinationIP, mapping)
    requires UrlIs(t, b.client, b.destinationIP, LocalPort(mapping), url)
    ensures ConfigHas(config, ParseNat(TargetText(mapping)).value, url, b.name)
  {
    var found :| UrlIs(t, b.client, b.destinationIP, LocalPort(mapping), found)
      && ConfigHas(config, ParseNat(TargetText(mapping)).value, found, b.name);
    UrlUnique(t, b.client, b.destinationIP, LocalPort(mapping), found, url);
  }

  // ----- One step of another bridge's handlers -----

  lemma {:induction false} LookupGives(d: seq<Named>, name: string)
    requires Lookup(d, name).Some?
    ensures exists j :: 0 <= j < |d| && d[j].bridge == Lookup(d, name).value
  {
    if d[0].name == name {
      assert d[0].bridge == Lookup(d, name).value;
    } else {
      LookupGives(d[1..], name);
      var j :| 0 <= j < |d[1..]| && d[1..][j].bridge == Lookup(d[1..], name).value;
      assert d[j + 1].bridge == Lookup(d, name).value;
    }
  }

  /** Every rebuild that includes the bridge has its entries, whatever has become of the others. */
  lemma RebuildKeepsEntry(base: seq<Proxy>, bridges: seq<Bridge>, me: nat, rm: Option<string>, config: seq<Proxy>, i: nat)
    requires Unbridged(base) && DistinctBridges(bridges) && me < |bridges| && i < |bridges[me].portMappings|
    requires IsDeclared(base, bridges, rm, config) && Included(bridges[me], rm)
    requires ParseMapping(bridges[me].portMappings[i]).Some? && !Faulty(bridges[me], PortsOf(base))
    ensures EntryLeads(config, bridges[me], bridges[me].portMappings[i])
  {
    var b := bridges[me];
    NotFaultyMaps(b, PortsOf(base), i);
    ParsedTarget(b.portMappings[i]);
    var p := Target(b.portMappings[i]).value;
    MapsConverts(b, PortsOf(base), p);
    RebuiltEntries(base, bridges, rm, config, p);
    OwnEntry(bridges, me, PortsOf(base), p, rm);
    LookupGives(Expected(bridges, PortsOf(base), p, rm), b.name);
  }

  lemma SetupSpares(other: Bridge, ip: string, suffixes: seq<string>, b: Bridge, n: nat)
    requires n <= |suffixes| == |other.portMappings|
    ensures forall j :: 0 <= j < n ==> Spares(AddOps(other, ip, suffixes)[..n][j], b)
  {
  }

  lemma TeardownSpares(other: Bridge, ip: string, b: Bridge, n: nat)
    requires n <= |other.portMappings| && !SharesRoute(other, ip, b)
    ensures forall j :: 0 <= j < n ==> Spares(RemoveOps(other, ip)[..n][j], b)
  {
    forall j | 0 <= j < n
      ensures Spares(RemoveOps(other, ip)[..n][j], b)
    {
      assert MapsLocal(other, LocalPort(other.portMappings[j]));
    }
  }

  /** The routes of the bridge and the URLs stored for them stay. */
  lemma RoutesStay(base: seq<Proxy>, s: Snapshot, h: Handled, s': Snapshot, me: nat)
    requires Sound(base, s, me) && HandlerStep(base, s, h, s') && IsOthers(s, h, me)
    ensures EndpointsSet(s'.t, s.bridges[me], s.bridges[me].destinationIP, |s.bridges[me].portMappings|)
  {
    var b := s.bridges[me];
    match h
    case SetsUp(k, ip, suffixes) =>
      var ops := AddOps(s.bridges[k], ip, suffixes);
      var n :| 0 <= n <= |ops| && s'.t == Run(s.t, ops[..n]);
      SetupSpares(s.bridges[k], ip, suffixes, b, n);
      EndpointsStay(s.t, ops[..n], b);
    case TearsDown(k, ip) =>
      var ops := RemoveOps(s.bridges[k], ip);
      var n :| 0 <= n <= |ops| && s'.t == Run(s.t, ops[..n]);
      TeardownSpares(s.bridges[k], ip, b, n);
      EndpointsStay(s.t, ops[..n], b);
    case Readdresses(_, _) =>
    case Collects => SparedStep(s.t, Collect(s.bridges), b);
  }

  lemma OthersLeaveObject(base: seq<Proxy>, s: Snapshot, h: Handled, s': Snapshot, me: nat)
    requires Sound(base, s, me) && HandlerStep(base, s, h, s') && IsOthers(s, h, me)
    ensures me < |s'.bridges| && s'.bridges[me] == s.bridges[me] && DistinctBridges(s'.bridges)
    ensures s'.config == s.config || exists rm :: Included(s.bridges[me], rm) && IsDeclared(base, s'.bridges, rm, s'.config)
  {
    match h
    case SetsUp(k, ip, suffixes) =>
      assert Included(s.bridges[me], None);
      forall i | 0 <= i < |s.bridges|
        ensures s'.bridges[i].name == s.bridges[i].name
      {
      }
    case TearsDown(k, ip) =>
      assert Included(s.bridges[me], Some(s.bridges[k].name));
    case Readdresses(_, _) =>
    case Collects =>
  }

  lemma OthersKeepSound(base: seq<Proxy>, s: Snapshot, h: Handled, s': Snapshot, me: nat)
    requires Sound(base, s, me) && HandlerStep(base, s, h, s') && IsOthers(s, h, me)
    ensures Sound(base, s', me) && s'.bridges[me] == s.bridges[me]
  {
    var b := s.bridges[me];
    RoutesStay(base, s, h, s', me);
    OthersLeaveObject(base, s, h, s', me);
    forall i | 0 <= i < |b.portMappings|
      ensures EntryLeads(s'.config, b, b.portMappings[i])
    {
      if s'.config == s.config {
        assert EntryLeads(s.config, b, b.portMappings[i]);
      } else {
        var rm :| Included(b, rm) && IsDeclared(base, s'.bridges, rm, s'.config);
        RebuildKeepsEntry(base, s'.bridges, me, rm, s'.config, i);
      }
    }
  }

  // ----- Runs -----

  /** A run of handlers of other bridges, none of which tears down a route that this bridge shares. */
  ghost predicate OthersRun(base: seq<Proxy>, states: seq<Snapshot>, handled: seq<Handled>, me: nat) {
    && |states| == |handled| + 1
    && forall n {:trigger handled[n]} :: 0 <= n < |handled| ==>
        && HandlerStep(base, states[n], handled[n], states[n + 1])
        && (me < |states[n].bridges| ==> IsOthers(states[n], handled[n], me))
  }

  /**
    A bridge that has been set up stays intact, with its routes, its stored URLs and its entries, through every run of
    the handlers of the other bridges, although each of them may rebuild the whole configuration.
   */
  lemma {:induction false} StaysIntact(base: seq<Proxy>, states: seq<Snapshot>, handled: seq<Handled>, me: nat, n: nat)
    requires OthersRun(base, states, handled, me) && n <= |handled| && Sound(base, states[0], me)
    ensures Sound(base, states[n], me) && states[n].bridges[me] == states[0].bridges[me]
    ensures Intact(states[n].t, states[n].config, states[n].bridges[me])
  {
    if n > 0 {
      StaysIntact(base, states, handled, me, n - 1);
      assert HandlerStep(base, states[n - 1], handled[n - 1], states[n]);
      OthersKeepSound(base, states[n - 1], handled[n - 1], states[n], me);
    }
    SoundIsIntact(base, states[n], me);
  }
}

/** The operator's cluster view and the steps of `GefyraBridge` on it. */
module BridgeController {
  import opened Wrappers
  import opened Text
  import opened Encoding
  import opened Table
  import opened Objects
  import opened Runs
  import opened StowawayProvider
  import opened CarrierConfig
  import opened BridgeRoutes
  import opened Intactness

  /** One more endpoint stored: the last mapping with a text is the new one, or the one it was. */
  lemma EndpointOfLastStep(t: Table, op: Op, b: Bridge, ip: string, n: nat, url: string, text: string)
    requires n < |b.portMappings| && op.Add?
    requires text != TargetText(b.portMappings[n]) ==> EndpointOfLast(t, b, ip, n, text)
    requires UrlIs(Apply(t, op), b.client, ip, LocalPort(b.portMappings[n]), url)
    ensures EndpointOfLast(Apply(t, op), PatchEndpoint(b, TargetText(b.portMappings[n]), url), ip, n + 1, text)
  {
    if text != TargetText(b.portMappings[n]) {
      var k := LastWith(b.portMappings, text, n);
      assert LastWith(b.portMappings, text, n + 1) == k;
      UrlStays(t, op, b.client, ip, LocalPort(b.portMappings[k]), EndpointsOf(b)[text]);
    } else {
      assert LastWith(b.portMappings, text, n + 1) == n;
    }
  }

  lemma LastEndpointsStep(t: Table, op: Op, b: Bridge, ip: string, n: nat, url: string)
    requires n < |b.portMappings| && op.Add?
    requires LastEndpoints(t, b, ip, n)
    requires UrlIs(Apply(t, op), b.client, ip, LocalPort(b.portMappings[n]), url)
    ensures LastEndpoints(Apply(t, op), PatchEndpoint(b, TargetText(b.portMappings[n]), url), ip, n + 1)
  {
    var b' := PatchEndpoint(b, TargetText(b.portMappings[n]), url);
    assert b'.portMappings == b.portMappings;
    forall i | 0 <= i < n + 1
      ensures EndpointOfLast(Apply(t, op), b', ip, n + 1, TargetText(b'.portMappings[i]))
    {
      var text := TargetText(b.portMappings[i]);
      assert i < n ==> EndpointOfLast(t, b, ip, n, TargetText(b.portMappings[i]));
      EndpointOfLastStep(t, op, b, ip, n, url, text);
    }
  }

  lemma OwnEndpointsStep(b: Bridge, n: nat, url: string)
    requires n < |b.portMappings| && OwnEndpoints(b)
    ensures OwnEndpoints(PatchEndpoint(b, TargetText(b.portMappings[n]), url))
  {
    var b' := PatchEndpoint(b, TargetText(b.portMappings[n]), url);
    forall key | key in EndpointsOf(b')
      ensures LastWith(b'.portMappings, key, |b'.portMappings|) >= 0
    {
      if key == TargetText(b.portMappings[n]) {
        assert TargetText(b'.portMappings[n]) == key;
      }
    }
  }

  lemma AllPresentStep(t: Table, op: Op, b: Bridge, b': Bridge, ip: string, n: nat, url: string)
    requires n < |b.portMappings| && op.Add? && b'.portMappings == b.portMappings && b'.client == b.client
    requires AllPresent(t, b, ip, n) && UrlIs(Apply(t, op), b.client, ip, LocalPort(b.portMappings[n]), url)
    ensures AllPresent(Apply(t, op), b', ip, n + 1)
  {
    forall i | 0 <= i < n
      ensures HasPeerDest(Apply(t, op), b.client, ip, LocalPort(b.portMappings[i]))
    {
      assert HasPeerDest(t, b.client, ip, LocalPort(b.portMappings[i]));
      var p :| p in t && ServesPeer(t[p], b.client, ip, LocalPort(b.portMappings[i]));
      assert p in Apply(t, op) && Apply(t, op)[p] == t[p];
    }
  }

  lemma UrlStays(t: Table, op: Op, client: string, ip: string, port: nat, url: string)
    requires op.Add? && UrlIs(t, client, ip, port, url)
    ensures UrlIs(Apply(t, op), client, ip, port, url)
  {
    var p :| p in t && ServesPeer(t[p], client, ip, port) && url == Url(p);
    assert p in Apply(t, op) && Apply(t, op)[p] == t[p];
  }

  /** Some prefix of the operations has been carried out. */
  ghost predicate PartlyRun(t: Table, ops: seq<Op>, t': Table) {
    exists k :: 0 <= k <= |ops| && t' == Run(t, ops[..k])
  }

  /** The local ports of the first `n` mappings that have no route yet. */
  ghost function MissingPorts(t: Table, b: Bridge, ip: string, n: nat): set<nat>
    requires n <= |b.portMappings|
  {
    if n == 0 then {}
    else
      var port := LocalPort(b.portMappings[n - 1]);
      MissingPorts(t, b, ip, n - 1) + if HasPeerDest(t, b.client, ip, port) then {} else {port}
  }

  lemma {:induction false} MissingIff(t: Table, b: Bridge, ip: string, n: nat, port: nat)
    requires n <= |b.portMappings|
    ensures port in MissingPorts(t, b, ip, n) <==> !HasPeerDest(t, b.client, ip, port) && MapsBefore(b, n, port)
  {
    if n > 0 {
      MissingIff(t, b, ip, n - 1, port);
      MapsBeforeStep(b, n - 1, port);
    }
  }

  lemma MapsBeforeStep(b: Bridge, n: nat, port: nat)
    requires n < |b.portMappings|
    ensures MapsBefore(b, n + 1, port) <==> MapsBefore(b, n, port) || LocalPort(b.portMappings[n]) == port
  {
  }

  lemma MissingStep(t: Table, b: Bridge, ip: string, n: nat)
    requires n < |b.portMappings|
    ensures var port := LocalPort(b.portMappings[n]);
      |MissingPorts(t, b, ip, n + 1)| ==
      |MissingPorts(t, b, ip, n)| + if HasPeerDest(t, b.client, ip, port) || MapsBefore(b, n, port) then 0 else 1
  {
    var port, before := LocalPort(b.portMappings[n]), MissingPorts(t, b, ip, n);
    MissingIff(t, b, ip, n, port);
    assert HasPeerDest(t, b.client, ip, port) ==> before + {} == before;
    assert port in before ==> before + {port} == before;
  }

  /** The adds for the first `n` mappings have made exactly the missing routes. */
  ghost predicate AddsCounted(t0: Table, b: Bridge, ip: string, n: nat, t: Table)
    requires n <= |b.portMappings|
  {
    |t| == |t0| + |MissingPorts(t0, b, ip, n)| && AddsServe(t0, b, ip, n, t)
  }

  ghost predicate AddsServe(t0: Table, b: Bridge, ip: string, n: nat, t: Table)
    requires n <= |b.portMappings|
  {
    forall port {:trigger HasPeerDest(t, b.client, ip, port)} ::
      HasPeerDest(t, b.client, ip, port) <==> HasPeerDest(t0, b.client, ip, port) || MapsBefore(b, n, port)
  }

  lemma CountedStep(t0: Table, b: Bridge, ip: string, n: nat, t: Table, row: Row)
    requires n < |b.portMappings| && AddsCounted(t0, b, ip, n, t)
    requires row.peer == b.client && row.ip == ip && row.port == LocalPort(b.portMappings[n])
    requires HasPeerDest(Apply(t, Add(row)), b.client, ip, row.port)
    ensures AddsCounted(t0, b, ip, n + 1, Apply(t, Add(row)))
  {
    assert HasPeerDest(t, b.client, ip, row.port) <==> HasPeerDest(t0, b.client, ip, row.port) || MapsBefore(b, n, row.port);
    MissingStep(t0, b, ip, n);
    AddGrows(t, row);
    forall port
      ensures HasPeerDest(Apply(t, Add(row)), b.client, ip, port) <==>
        HasPeerDest(t0, b.client, ip, port) || MapsBefore(b, n + 1, port)
    {
      AddServes(t, row, port);
      MapsBeforeStep(b, n, port);
      assert HasPeerDest(t, b.client, ip, port) <==> HasPeerDest(t0, b.client, ip, port) || MapsBefore(b, n, port);
    }
  }

  lemma AddGrows(t: Table, row: Row)
    requires HasPeerDest(Apply(t, Add(row)), row.peer, row.ip, row.port)
    ensures |Apply(t, Add(row))| == if HasPeerDest(t, row.peer, row.ip, row.port) then |t| else |t| + 1
  {
    if !HasPeerDest(t, row.peer, row.ip, row.port) {
      var t', p := Apply(t, Add(row)), FreePort(t.Keys).value;
      assert t'.Keys == t.Keys + {p} && |t'| == |t'.Keys| && |t| == |t.Keys|;
    }
  }

  lemma AddServes(t: Table, row: Row, port: nat)
    requires HasPeerDest(Apply(t, Add(row)), row.peer, row.ip, row.port)
    ensures HasPeerDest(Apply(t, Add(row)), row.peer, row.ip, port) <==>
      HasPeerDest(t, row.peer, row.ip, port) || port == row.port
  {
    var t' := Apply(t, Add(row));
    if q :| q in t && ServesPeer(t[q], row.peer, row.ip, port) {
      assert q in t' && t'[q] == t[q];
    }
    if q :| q in t' && ServesPeer(t'[q], row.peer, row.ip, port) {
      assert t'[q] != row ==> q in t && t[q] == t'[q];
    }
  }

  /** What the first loop of setup needs: mappings that parse, and for those without a route the Pod and a free port. */
  ghost predicate RoutesSetUp(t: Table, b: Bridge, ip: string, podPresent: bool) {
    && Parses(b) && (podPresent || AllPresent(t, b, ip, |b.portMappings|))
    && |t| + |MissingPorts(t, b, ip, |b.portMappings|)| <= END_PORT - FIRST_PORT
  }

  lemma {:induction false} MissingGrows(t: Table, b: Bridge, ip: string, n: nat, m: nat)
    requires n <= m <= |b.portMappings|
    ensures |MissingPorts(t, b, ip, n)| <= |MissingPorts(t, b, ip, m)| <= |MissingPorts(t, b, ip, n)| + m - n
  {
    if n < m {
      MissingGrows(t, b, ip, n, m - 1);
      MissingStep(t, b, ip, m - 1);
    }
  }

  /** A mapping whose route is still missing is one more than the routes made so far. */
  lemma OneMore(t0: Table, b: Bridge, ip: string, n: nat, t: Table)
    requires n < |b.portMappings| && AddsCounted(t0, b, ip, n, t)
    requires !HasPeerDest(t, b.client, ip, LocalPort(b.portMappings[n]))
    ensures |t| < |t0| + |MissingPorts(t0, b, ip, |b.portMappings|)|
  {
    MissingStep(t0, b, ip, n);
    MissingGrows(t0, b, ip, n + 1, |b.portMappings|);
  }

  /** Where the Pod is away, every mapping so far had its route. */
  ghost predicate AddsPossible(t0: Table, b: Bridge, ip: string, n: nat, podPresent: bool) {
    podPresent || AllPresent(t0, b, ip, n)
  }

  lemma AddsTurn(t0: Table, b: Bridge, ip: string, n: nat, t: Table, podPresent: bool, url: Result<string>)
    requires n < |b.portMappings| && AddsCounted(t0, b, ip, n, t) && AddsPossible(t0, b, ip, n, podPresent)
    requires url.Failure? <==>
      !HasPeerDest(t, b.client, ip, LocalPort(b.portMappings[n])) && (|t| >= END_PORT - FIRST_PORT || !podPresent)
    ensures if url.Success? then AddsPossible(t0, b, ip, n + 1, podPresent) else !RoutesSetUp(t0, b, ip, podPresent)
  {
    var port := LocalPort(b.portMappings[n]);
    if url.Failure? {
      OneMore(t0, b, ip, n, t);
    } else if !podPresent {
      assert HasPeerDest(t, b.client, ip, port) <==> HasPeerDest(t0, b.client, ip, port) || MapsBefore(b, n, port);
      if MapsBefore(b, n, port) {
        var k :| 0 <= k < n && LocalPort(b.portMappings[k]) == port;
        assert HasPeerDest(t0, b.client, ip, LocalPort(b.portMappings[k]));
      }
    }
  }

  /** The first loop of setup has dealt with `n` mappings of `b`, which has become `b'`. */
  ghost predicate AddsDone(t0: Table, b: Bridge, ip: string, suffixes: seq<string>, n: nat, t: Table, b': Bridge) {
    && n <= |suffixes| == |b.portMappings| && b' == b.(endpoints := b'.endpoints)
    && t == Run(t0, AddOps(b, ip, suffixes)[..n])
    && FreshSuffixes(t, b.client, suffixes[n..]) && AddressOwned(t, b.client, ip)
    && AddsCounted(t0, b, ip, n, t)
    && LastEndpoints(t, b', ip, n) && AllPresent(t, b', ip, n)
    && (forall i {:trigger b.portMappings[i]} :: 0 <= i < n ==> ParseMapping(b.portMappings[i]).Some?)
    && (OwnEndpoints(b) ==> OwnEndpoints(b'))
  }

  lemma AddsStart(t0: Table, b: Bridge, ip: string, suffixes: seq<string>)
    requires |suffixes| == |b.portMappings|
    requires FreshSuffixes(t0, b.client, suffixes) && AddressOwned(t0, b.client, ip)
    ensures AddsDone(t0, b, ip, suffixes, 0, t0, b)
    ensures PartlyRun(t0, AddOps(b, ip, suffixes), t0)
  {
    assert suffixes[0..] == suffixes;
    assert t0 == Run(t0, AddOps(b, ip, suffixes)[..0]);
  }

  /** The next add finds a fresh key and an exact guard. */
  lemma AddsReady(t0: Table, b: Bridge, ip: string, suffixes: seq<string>, n: nat, t: Table, b': Bridge)
    requires n < |suffixes| && AddsDone(t0, b, ip, suffixes, n, t, b')
    ensures Fresh(t, Row(b.client, suffixes[n], ip, LocalPort(b.portMappings[n])))
    ensures HasPeerDest(t, b.client, ip, LocalPort(b.portMappings[n])) <==> HasDest(t, ip, LocalPort(b.portMappings[n]))
  {
    assert suffixes[n..][0] == suffixes[n];
    OwnedDest(t, b.client, ip, LocalPort(b.portMappings[n]));
  }

  /** A mapping that does not parse ends the setup. */
  lemma AddsStopped(t0: Table, b: Bridge, ip: string, suffixes: seq<string>, n: nat, t: Table, b': Bridge)
    requires n < |suffixes| && AddsDone(t0, b, ip, suffixes, n, t, b') && ParseMapping(b.portMappings[n]).None?
    ensures PartlyRun(t0, AddOps(b, ip, suffixes), t)
    ensures forall podPresent :: !RoutesSetUp(t0, b, ip, podPresent)
  {
  }

  lemma RunStep(t0: Table, ops: seq<Op>, n: nat, t: Table)
    requires n < |ops| && t == Run(t0, ops[..n])
    ensures Apply(t, ops[n]) == Run(t0, ops[..n + 1]) && PartlyRun(t0, ops, Apply(t, ops[n]))
  {
    assert ops[..n + 1] == ops[..n] + [ops[n]];
    RunAppend(t0, ops[..n], ops[n]);
  }

  lemma AddsStep(t0: Table, b: Bridge, ip: string, suffixes: seq<string>, n: nat, t: Table, b': Bridge, url: string)
    requires n < |suffixes| && AddsDone(t0, b, ip, suffixes, n, t, b') && ParseMapping(b.portMappings[n]).Some?
    requires UrlIs(Apply(t, AddOps(b, ip, suffixes)[n]), b.client, ip, LocalPort(b.portMappings[n]), url)
    ensures AddsDone(t0, b, ip, suffixes, n + 1, Apply(t, AddOps(b, ip, suffixes)[n]),
                     PatchEndpoint(b', TargetText(b.portMappings[n]), url))
  {
    var op := AddOps(b, ip, suffixes)[n];
    RunStep(t0, AddOps(b, ip, suffixes), n, t);
    AddKeepsFresh(t, b.client, ip, LocalPort(b.portMappings[n]), suffixes, n);
    CountedStep(t0, b, ip, n, t, op.row);
    LastEndpointsStep(t, op, b', ip, n, url);
    AllPresentStep(t, op, b', PatchEndpoint(b', TargetText(b.portMappings[n]), url), ip, n, url);
    if OwnEndpoints(b) {
      OwnEndpointsStep(b', n, url);
    }
  }

  lemma AddsAfter(t0: Table, b: Bridge, ip: string, suffixes: seq<string>, n: nat, t: Table, b': Bridge, podPresent: bool,
                  url: Result<string>)
    requires n < |suffixes| && AddsDone(t0, b, ip, suffixes, n, t, b') && ParseMapping(b.portMappings[n]).Some?
    requires AddsPossible(t0, b, ip, n, podPresent) && TableOk(t)
    requires var t' := Apply(t, Add(Row(b.client, suffixes[n], ip, LocalPort(b.portMappings[n]))));
      url.Success? ==> UrlIs(t', b.client, ip, LocalPort(b.portMappings[n]), url.value)
    requires url.Failure? <==>
      !HasPeerDest(t, b.client, ip, LocalPort(b.portMappings[n])) && (FreePort(t.Keys).None? || !podPresent)
    ensures var t' := Apply(t, Add(Row(b.client, suffixes[n], ip, LocalPort(b.portMappings[n]))));
      if url.Success?
      then AddsDone(t0, b, ip, suffixes, n + 1, t', PatchEndpoint(b', TargetText(b.portMappings[n]), url.value))
           && AddsPossible(t0, b, ip, n + 1, podPresent)
      else PartlyRun(t0, AddOps(b, ip, suffixes), t') && !RoutesSetUp(t0, b, ip, podPresent)
  {
    RunStep(t0, AddOps(b, ip, suffixes), n, t);
    ExhaustedIff(t);
    AddsTurn(t0, b, ip, n, t, podPresent, url);
    if url.Success? {
      AddsStep(t0, b, ip, suffixes, n, t, b', url.value);
    }
  }

  lemma AddsEnd(t0: Table, b: Bridge, ip: string, suffixes: seq<string>, t: Table, b': Bridge, podPresent: bool)
    requires AddsDone(t0, b, ip, suffixes, |suffixes|, t, b') && TableOk(t)
    requires AddsPossible(t0, b, ip, |suffixes|, podPresent)
    ensures RoutesSetUp(t0, b, ip, podPresent)
    ensures t == Run(t0, AddOps(b, ip, suffixes))
    ensures PartlyRun(t0, AddOps(b, ip, suffixes), t)
    ensures Parses(b') && LastEndpoints(t, b', ip, |b'.portMappings|) && AllPresent(t, b', ip, |b'.portMappings|)
  {
    var ops := AddOps(b, ip, suffixes);
    assert ops[..|suffixes|] == ops;
    assert |t| == |t.Keys|;
    WithinInterval(t.Keys, FIRST_PORT, END_PORT);
  }

  lemma AddKeepsFresh(t: Table, client: string, ip: string, port: nat, suffixes: seq<string>, n: nat)
    requires n < |suffixes| && FreshSuffixes(t, client, suffixes[n..]) && AddressOwned(t, client, ip)
    ensures var t' := Apply(t, Add(Row(client, suffixes[n], ip, port)));
      FreshSuffixes(t', client, suffixes[n + 1..]) && AddressOwned(t', client, ip)
  {
    var rest := suffixes[n..];
    assert rest[0] == suffixes[n];
    assert suffixes[n + 1..] == rest[1..];
  }

  /** The second loop of setup has dealt with `n` mappings: all were found in place, or the configuration was rebuilt. */
  ghost predicate ConfigDone(t: Table, config0: seq<Proxy>, base: seq<Proxy>, bridges: seq<Bridge>, me: nat, ip: string,
                             n: nat, config: seq<Proxy>)
    requires me < |bridges|
  {
    || (config == config0 && AllReachable(t, config, bridges[me], ip, n))
    || Rebuilt(base, bridges, me, config)
  }

  /** What the second loop needs: everything in place, or Pods that answer and a bridge that can be deployed. */
  ghost predicate ConfigSetUp(t: Table, config: seq<Proxy>, b: Bridge, ip: string, ports: seq<nat>, listed: bool, answers: bool) {
    || b.portMappings == [] || (listed && AllReachable(t, config, b, ip, |b.portMappings|))
    || (answers && Deployable(b, ports))
  }

  /** Exactly when a setup goes through. */
  ghost predicate SetsUp(t: Table, config: seq<Proxy>, b: Bridge, ip: string, suffixes: seq<string>, ports: seq<nat>,
                         podPresent: bool, listed: bool, answers: bool)
    requires |suffixes| == |b.portMappings|
  {
    RoutesSetUp(t, b, ip, podPresent) && ConfigSetUp(Run(t, AddOps(b, ip, suffixes)), config, b, ip, ports, listed, answers)
  }

  /** A deployable bridge sets up if the Stowaway Pod is there, the Pods answer and there is room for its mappings. */
  lemma DeployableSetsUp(t: Table, config: seq<Proxy>, b: Bridge, ip: string, suffixes: seq<string>, ports: seq<nat>, listed: bool)
    requires |suffixes| == |b.portMappings| && Deployable(b, ports) && |t| + |suffixes| <= END_PORT - FIRST_PORT
    ensures SetsUp(t, config, b, ip, suffixes, ports, true, listed, true)
  {
    MissingGrows(t, b, ip, 0, |b.portMappings|);
    DeployableSame(b, b, ports);
  }

  /** After `n` mappings of the second loop: all found in place, or the configuration rebuilt where one was not. */
  ghost predicate ConfigSteps(t: Table, config0: seq<Proxy>, base: seq<Proxy>, bridges: seq<Bridge>, me: nat, ip: string,
                              n: nat, config: seq<Proxy>, listed: bool, answers: bool)
    requires me < |bridges|
  {
    if n == 0 || (listed && AllReachable(t, config0, bridges[me], ip, n)) then config == config0
    else answers && Rebuilt(base, bridges, me, config)
  }

  lemma ConfigStepsDone(t: Table, config0: seq<Proxy>, base: seq<Proxy>, bridges: seq<Bridge>, me: nat, ip: string,
                        n: nat, config: seq<Proxy>, listed: bool, answers: bool)
    requires me < |bridges| && n <= |bridges[me].portMappings|
    requires ConfigSteps(t, config0, base, bridges, me, ip, n, config, listed, answers)
    ensures ConfigDone(t, config0, base, bridges, me, ip, n, config)
  {
  }

  lemma ReachableStep(t: Table, config: seq<Proxy>, b: Bridge, ip: string, n: nat)
    requires n < |b.portMappings|
    ensures AllReachable(t, config, b, ip, n + 1) <==> AllReachable(t, config, b, ip, n) && Reachable(t, config, b, ip, b.portMappings[n])
    ensures !AllReachable(t, config, b, ip, n + 1) ==> !AllReachable(t, config, b, ip, |b.portMappings|)
  {
  }

  /** What a setup has done when it completes. */
  ghost predicate Completed(t: Table, config0: seq<Proxy>, base: seq<Proxy>, bridges: seq<Bridge>, me: nat, ip: string,
                            config: seq<Proxy>)
    requires me < |bridges|
  {
    var b := bridges[me];
    && Parses(b) && LastEndpoints(t, b, ip, |b.portMappings|) && AllPresent(t, b, ip, |b.portMappings|)
    && ConfigDone(t, config0, base, bridges, me, ip, |b.portMappings|, config)
  }

  lemma FaultlessTargets(b: Bridge, ports: seq<nat>, n: nat)
    requires n < |b.portMappings| && !Faulty(b, ports) && ParseMapping(b.portMappings[n]).Some?
    ensures ParseNat(TargetText(b.portMappings[n])).Some?
  {
    NotFaultyMaps(b, ports, n);
    ParsedTarget(b.portMappings[n]);
  }

  /** With one local port for each target port a completed setup leaves the bridge intact, and its own URLs stored. */
  lemma CompletedIsIntact(t: Table, config0: seq<Proxy>, base: seq<Proxy>, bridges: seq<Bridge>, me: nat, config: seq<Proxy>)
    requires TableOk(t) && Unbridged(base) && DistinctBridges(bridges) && me < |bridges|
    requires Completed(t, config0, base, bridges, me, bridges[me].destinationIP, config)
    requires OwnEndpoints(bridges[me]) && OneLocalPort(bridges[me])
    ensures Intact(t, config, bridges[me])
    ensures EndpointsSet(t, bridges[me], bridges[me].destinationIP, |bridges[me].portMappings|)
  {
    var b := bridges[me];
    if Rebuilt(base, bridges, me, config) {
      OneLocalPortSuffices(t, base, bridges, me, config);
    }
    assert forall i {:trigger b.portMappings[i]} :: 0 <= i < |b.portMappings| ==>
        Reachable(t, config, b, b.destinationIP, b.portMappings[i]);
    OwnUrlsStored(t, b, b.destinationIP);
  }

  lemma ReachableIsEntered(t: Table, config: seq<Proxy>, b: Bridge, ip: string, mapping: string)
    ensures Reachable(t, config, b, ip, mapping) ==> !NotEntered(config, b.name)
  {
  }

  /** A completed setup of a bridge that was not in the configuration has rebuilt it, if there is anything to set up. */
  lemma CompletedRebuilds(t: Table, config0: seq<Proxy>, base: seq<Proxy>, bridges: seq<Bridge>, me: nat, config: seq<Proxy>)
    requires TableOk(t) && Unbridged(base) && DistinctBridges(bridges) && me < |bridges|
    requires Completed(t, config0, base, bridges, me, bridges[me].destinationIP, config)
    requires OwnEndpoints(bridges[me]) && NotEntered(config0, bridges[me].name)
    ensures bridges[me].portMappings != [] ==> SetUp(t, base, bridges, me, config) && Deployable(bridges[me], PortsOf(base))
  {
    var b := bridges[me];
    if b.portMappings != [] {
      ReachableIsEntered(t, config0, b, b.destinationIP, b.portMappings[0]);
      assert Rebuilt(base, bridges, me, config);
      FaultyIff(t, b, b.destinationIP, PortsOf(base));
    }
  }

  /** Exactly when such a setup leaves the bridge intact. */
  lemma CompletedIntactIff(t: Table, config0: seq<Proxy>, base: seq<Proxy>, bridges: seq<Bridge>, me: nat, config: seq<Proxy>)
    requires TableOk(t) && Unbridged(base) && DistinctBridges(bridges) && me < |bridges|
    requires Completed(t, config0, base, bridges, me, bridges[me].destinationIP, config)
    requires OwnEndpoints(bridges[me]) && NotEntered(config0, bridges[me].name)
    ensures Intact(t, config, bridges[me]) <==> Served(t, base, bridges, me)
    ensures |bridges| == 1 ==> (Intact(t, config, bridges[me]) <==> OneLocalPort(bridges[me]))
  {
    CompletedRebuilds(t, config0, base, bridges, me, config);
    if bridges[me].portMappings != [] {
      SetUpIntactIff(t, base, bridges, me, config);
      if |bridges| == 1 {
        assert bridges == [bridges[0]];
        SoleIntactIff(t, base, bridges[0], config);
      }
    }
  }

  lemma RebuiltEntered(base: seq<Proxy>, bridges: seq<Bridge>, me: nat, config: seq<Proxy>)
    requires Unbridged(base) && DistinctBridges(bridges) && me < |bridges| && Rebuilt(base, bridges, me, config)
    requires bridges[me].portMappings != []
    ensures !NotEntered(config, bridges[me].name)
  {
    var p := Target(bridges[me].portMappings[0]);
    NotFaultyMaps(bridges[me], PortsOf(base), 0);
    MapsConverts(bridges[me], PortsOf(base), p.value);
    RebuiltEntries(base, bridges, None, config, p.value);
    OwnEntry(bridges, me, PortsOf(base), p.value, None);
  }

  /** A bridge that is torn down after a completed setup is found configured under either of these conditions. */
  lemma CompletedConfigured(t: Table, config0: seq<Proxy>, base: seq<Proxy>, bridges: seq<Bridge>, me: nat, config: seq<Proxy>)
    requires TableOk(t) && Unbridged(base) && DistinctBridges(bridges) && me < |bridges|
    requires Completed(t, config0, base, bridges, me, bridges[me].destinationIP, config)
    requires OwnEndpoints(bridges[me]) && bridges[me].portMappings != []
    ensures OneLocalPort(bridges[me]) || FreesItself(bridges[me]) ==>
      SomeConfigured(t, config, bridges[me], bridges[me].destinationIP, |bridges[me].portMappings|)
  {
    var b := bridges[me];
    if OneLocalPort(b) {
      CompletedIsIntact(t, config0, base, bridges, me, config);
      IntactConfigured(t, config, b);
    } else if Rebuilt(base, bridges, me, config) {
      if FreesItself(b) {
        FreesItselfSuffices(t, base, bridges, me, config);
      }
    } else {
      IntactConfigured(t, config, b);
    }
  }

  /** For the only bridge of a mount, not configured before: exactly when its teardown finds it configured. */
  lemma CompletedConfiguredIff(t: Table, config0: seq<Proxy>, base: seq<Proxy>, bridges: seq<Bridge>, config: seq<Proxy>)
    requires TableOk(t) && Unbridged(base) && |bridges| == 1
    requires Completed(t, config0, base, bridges, 0, bridges[0].destinationIP, config)
    requires OwnEndpoints(bridges[0]) && NotEntered(config0, bridges[0].name) && bridges[0].portMappings != []
    ensures SomeConfigured(t, config, bridges[0], bridges[0].destinationIP, |bridges[0].portMappings|) <==> FreesItself(bridges[0])
    ensures !NotEntered(config, bridges[0].name)
  {
    CompletedRebuilds(t, config0, base, bridges, 0, config);
    assert bridges == [bridges[0]];
    SoleConfiguredIff(t, base, bridges[0], config);
    RebuiltEntered(base, bridges, 0, config);
  }

  /** An intact bridge with any mapping is configured. */
  lemma IntactConfigured(t: Table, config: seq<Proxy>, b: Bridge)
    requires Intact(t, config, b) && b.portMappings != []
    ensures SomeConfigured(t, config, b, b.destinationIP, |b.portMappings|)
  {
    assert !MapsBefore(b, 0, LocalPort(b.portMappings[0]));
    assert Reachable(t, config, b, b.destinationIP, b.portMappings[0]);
  }

  /** What a setup of bridge `me` does in any case. */
  ghost predicate SetUpStep(base: seq<Proxy>, t: Table, bridges: seq<Bridge>, config: seq<Proxy>, me: nat, ip: string,
                            suffixes: seq<string>, t': Table, bridges': seq<Bridge>, config': seq<Proxy>)
    requires me < |bridges| && |suffixes| == |bridges[me].portMappings|
  {
    && PartlyRun(t, AddOps(bridges[me], ip, suffixes), t') && SameButEndpoints(bridges, bridges', me)
    && (config' == config || IsDeclared(base, bridges', None, config'))
  }

  /** What a teardown does in any case. */
  ghost predicate TeardownStep(base: seq<Proxy>, t: Table, bridges: seq<Bridge>, config: seq<Proxy>, me: nat, ip: string,
                               t': Table, config': seq<Proxy>)
    requires me < |bridges|
  {
    && PartlyRun(t, RemoveOps(bridges[me], ip), t')
    && (config' == config || IsDeclared(base, bridges, Some(bridges[me].name), config'))
  }

  class Cluster {
    const stowaway: Stowaway
    /** The Pod's configuration before any bridge: a proxy for each container port. */
    const base: seq<Proxy>
    /** The GefyraBridges of this mount, in list order. */
    var bridges: seq<Bridge>
    /** What is committed to the Pod. */
    var config: seq<Proxy>
    /** Whether the Pods can be listed. */
    var podsListed: bool
    /** Whether the bridge provider is ready and the Pods take a new configuration. */
    var carrierReady: bool

    ghost predicate Valid()
      reads this, stowaway
    {
      stowaway.Valid() && Unbridged(base) && DistinctBridges(bridges)
    }

    constructor (stowaway: Stowaway, base: seq<Proxy>, bridges: seq<Bridge>, ready: bool)
      requires stowaway.Valid() && Unbridged(base) && DistinctBridges(bridges)
      ensures Valid() && this.stowaway == stowaway && this.base == base && this.bridges == bridges && config == base
      ensures podsListed == carrierReady == ready
    {
      this.stowaway, this.base, this.bridges, this.config := stowaway, base, bridges, base;
      this.podsListed, this.carrierReady := ready, ready;
    }

    predicate Answers()
      reads this
    {
      podsListed && carrierReady
    }

    /** `proxy_route_exists`, reading the configuration back from the Pod; no Pods, no route. */
    method ProxyRouteExists(targetText: string, endpoint: string, name: string) returns (r: Result<bool>)
      ensures !podsListed ==> r == Success(false)
      ensures podsListed && ParseNat(targetText).Some? ==> r == Success(ConfigHas(config, ParseNat(targetText).value, endpoint, name))
      ensures r.Failure? <==> podsListed && ParseNat(targetText).None? && !Unbridged(config)
      ensures ParseNat(targetText).None? ==> r != Success(true)
    {
      if !podsListed {
        return Success(false);
      }
      if forall i :: 0 <= i < |config| ==> config[i].bridges == [] {
        return Success(false);
      }
      var port := ParseNat(targetText);
      if port.None? {
        return Failure("ValueError");
      }
      var i := FindProxy(PortsOf(config), port.value);
      if i.None? || Lookup(config[i.value].bridges, name).None? {
        return Success(false);
      }
      var d := config[i.value].bridges;
      return Success(exists j :: 0 <= j < |d| && d[j].bridge.endpoint == endpoint);
    }

    /** `add_proxy_route`: rebuilds the whole configuration from all bridges and commits it. */
    method AddProxyRoute(me: nat) returns (r: Result<()>)
      requires Valid() && me < |bridges|
      modifies this`config
      ensures r.Success? <==> Answers() && !AddFails(bridges, PortsOf(base), Some(bridges[me].name), None)
      ensures r.Success? ==> IsDeclared(base, bridges, None, config)
      ensures r.Failure? ==> config == old(config)
    {
      if !podsListed || !carrierReady {
        return Failure("Not able to configure Carrier in Pods");
      }
      var carrierConfig := new Carrier2Config(base);
      var added := carrierConfig.AddBridgeRulesForMount(bridges, Some(bridges[me].name), None);
      if added.Failure? {
        return Failure(added.error);
      }
      config := carrierConfig.proxy;
      return Success(());
    }

    /** `remove_proxy_route`: the same rebuild without this bridge. */
    method RemoveProxyRoute(me: nat) returns (r: Result<()>)
      requires Valid() && me < |bridges|
      modifies this`config
      ensures r.Success? <==> Answers()
      ensures r.Success? ==> IsDeclared(base, bridges, Some(bridges[me].name), config)
      ensures r.Failure? ==> config == old(config)
    {
      if !podsListed || !carrierReady {
        return Failure("Not able to configure Carrier in Pods");
      }
      var carrierConfig := new Carrier2Config(base);
      var removed := carrierConfig.AddBridgeRulesForMount(bridges, None, Some(bridges[me].name));
      assert removed.Success?;
      config := carrierConfig.proxy;
      return Success(());
    }

    /** The first half of setup for one mapping: the destination exists already, or it is added. */
    method EnsureDestination(client: string, ip: string, port: nat, suffix: string) returns (r: Result<string>)
      requires Valid() && CleanIp(ip)
      requires Fresh(stowaway.table, Row(client, suffix, ip, port))
      requires HasPeerDest(stowaway.table, client, ip, port) <==> HasDest(stowaway.table, ip, port)
      modifies stowaway`routes, stowaway`services, stowaway`table
      ensures Valid()
      ensures stowaway.table == Apply(old(stowaway.table), Add(Row(client, suffix, ip, port)))
      ensures r.Success? ==> UrlIs(stowaway.table, client, ip, port, r.value)
      ensures r.Failure? <==>
        (!HasPeerDest(old(stowaway.table), client, ip, port)
         && (FreePort(old(stowaway.table.Keys)).None? || !stowaway.podPresent))
    {
      var exists_ := stowaway.DestinationExists(client, ip, port);
      if !exists_ {
        ghost var row := Row(client, suffix, ip, port);
        ghost var t := stowaway.table;
        r := stowaway.AddDestination(client, ip, port, suffix);
        if r.Success? {
          ghost var p := FreePort(t.Keys).value;
          assert p in stowaway.table && ServesPeer(stowaway.table[p], client, ip, port);
        }
      } else {
        r := stowaway.GetDestination(client, ip, port);
        ghost var p :| p in stowaway.table && ServesPeer(stowaway.table[p], client, ip, port);
        assert r == Success(Url(p));
      }
    }

    /** `handle_proxyroute_setup`. A raise leaves the adds of a prefix of the mappings. */
    method HandleProxyrouteSetup(me: nat, destination: string, suffixes: seq<string>) returns (r: Result<()>)
      requires Valid() && me < |bridges| && CleanIp(destination)
      requires |suffixes| == |bridges[me].portMappings|
      requires FreshSuffixes(stowaway.table, bridges[me].client, suffixes)
      requires AddressOwned(stowaway.table, bridges[me].client, destination)
      modifies this`bridges, this`config, stowaway`routes, stowaway`services, stowaway`table
      ensures Valid() && SameButEndpoints(old(bridges), bridges, me)
      ensures SetUpStep(base, old(stowaway.table), old(bridges), old(config), me, destination, suffixes,
                        stowaway.table, bridges, config)
      ensures r.Success? ==>
        stowaway.table == Run(old(stowaway.table), AddOps(old(bridges[me]), destination, suffixes))
      ensures r.Success? ==> Completed(stowaway.table, old(config), base, bridges, me, destination, config)
      ensures OwnEndpoints(old(bridges[me])) ==> OwnEndpoints(bridges[me])
      ensures RoutesSetUp(old(stowaway.table), old(bridges[me]), destination, stowaway.podPresent) ==>
        stowaway.table == Run(old(stowaway.table), AddOps(old(bridges[me]), destination, suffixes))
      ensures r.Failure? ==> config == old(config)
      ensures podsListed && AllReachable(stowaway.table, old(config), old(bridges[me]), destination, |suffixes|) ==>
        config == old(config)
      ensures OwnEndpoints(old(bridges[me])) ==>
        (r.Success? <==> old(SetUpGoesThrough(me, destination, suffixes)))
    {
      r := SetUpDestinations(me, destination, suffixes);
      if r.Failure? {
        return;
      }
      ConfigSetUpIff(stowaway.table, config, old(bridges[me]), bridges[me], destination, PortsOf(base), podsListed, Answers());
      r := SetUpConfig(me, destination);
    }

    ghost predicate SetUpGoesThrough(me: nat, destination: string, suffixes: seq<string>)
      reads this, stowaway
      requires me < |bridges| && |suffixes| == |bridges[me].portMappings|
    {
      SetsUp(stowaway.table, config, bridges[me], destination, suffixes, PortsOf(base),
             stowaway.podPresent, podsListed, Answers())
    }

    /** The first loop of setup. */
    method SetUpDestinations(me: nat, destination: string, suffixes: seq<string>) returns (r: Result<()>)
      requires Valid() && me < |bridges| && CleanIp(destination)
      requires |suffixes| == |bridges[me].portMappings|
      requires FreshSuffixes(stowaway.table, bridges[me].client, suffixes)
      requires AddressOwned(stowaway.table, bridges[me].client, destination)
      modifies this`bridges, stowaway`routes, stowaway`services, stowaway`table
      ensures Valid() && SameButEndpoints(old(bridges), bridges, me)
      ensures PartlyRun(old(stowaway.table), AddOps(old(bridges[me]), destination, suffixes), stowaway.table)
      ensures OwnEndpoints(old(bridges[me])) ==> OwnEndpoints(bridges[me])
      ensures r.Success? ==>
        && stowaway.table == Run(old(stowaway.table), AddOps(old(bridges[me]), destination, suffixes))
        && Parses(bridges[me]) && LastEndpoints(stowaway.table, bridges[me], destination, |bridges[me].portMappings|)
        && AllPresent(stowaway.table, bridges[me], destination, |bridges[me].portMappings|)
      ensures r.Success? <==> RoutesSetUp(old(stowaway.table), old(bridges[me]), destination, stowaway.podPresent)
    {
      ghost var t0, b0 := stowaway.table, bridges[me];
      AddsStart(t0, b0, destination, suffixes);
      for n := 0 to |bridges[me].portMappings|
        invariant Valid() && SameButEndpoints(old(bridges), bridges, me)
        invariant AddsDone(t0, b0, destination, suffixes, n, stowaway.table, bridges[me])
        invariant AddsPossible(t0, b0, destination, n, stowaway.podPresent)
      {
        r := SetUpDestination(me, destination, suffixes, n, t0, b0);
        if r.Failure? {
          return;
        }
      }
      AddsEnd(t0, b0, destination, suffixes, stowaway.table, bridges[me], stowaway.podPresent);
      return Success(());
    }

    /** The body of the first loop of setup. */
    method SetUpDestination(me: nat, destination: string, suffixes: seq<string>, n: nat, ghost t0: Table, ghost b0: Bridge)
        returns (r: Result<()>)
      requires Valid() && me < |bridges| && CleanIp(destination) && n < |suffixes|
      requires AddsDone(t0, b0, destination, suffixes, n, stowaway.table, bridges[me])
      requires AddsPossible(t0, b0, destination, n, stowaway.podPresent)
      modifies this`bridges, stowaway`routes, stowaway`services, stowaway`table
      ensures Valid() && SameButEndpoints(old(bridges), bridges, me)
      ensures r.Success? ==> AddsDone(t0, b0, destination, suffixes, n + 1, stowaway.table, bridges[me])
      ensures r.Failure? ==> PartlyRun(t0, AddOps(b0, destination, suffixes), stowaway.table)
      ensures OwnEndpoints(b0) ==> OwnEndpoints(bridges[me])
      ensures r.Success? ==> AddsPossible(t0, b0, destination, n + 1, stowaway.podPresent)
      ensures r.Failure? ==> !RoutesSetUp(t0, b0, destination, stowaway.podPresent)
    {
      var b := bridges[me];
      var parsed := ParseMapping(b.portMappings[n]);
      if parsed.None? {
        AddsStopped(t0, b0, destination, suffixes, n, stowaway.table, b);
        return Failure("ValueError");
      }
      var url := EnsureMapping(b, destination, parsed.value.0, suffixes, n, t0, b0);
      if url.Failure? {
        return Failure(url.error);
      }
      Patched(bridges, me, parsed.value.1, url.value);
      bridges := bridges[me := PatchEndpoint(b, parsed.value.1, url.value)];
      return Success(());
    }

    /** The route of mapping `n`. */
    method EnsureMapping(b: Bridge, destination: string, localPort: nat, suffixes: seq<string>, n: nat,
                         ghost t0: Table, ghost b0: Bridge) returns (url: Result<string>)
      requires Valid() && CleanIp(destination) && n < |suffixes|
      requires AddsDone(t0, b0, destination, suffixes, n, stowaway.table, b)
      requires AddsPossible(t0, b0, destination, n, stowaway.podPresent)
      requires ParseMapping(b0.portMappings[n]).Some? && localPort == LocalPort(b0.portMappings[n])
      modifies stowaway`routes, stowaway`services, stowaway`table
      ensures Valid()
      ensures
        if url.Success?
        then AddsDone(t0, b0, destination, suffixes, n + 1, stowaway.table,
                      PatchEndpoint(b, TargetText(b0.portMappings[n]), url.value))
             && AddsPossible(t0, b0, destination, n + 1, stowaway.podPresent)
        else PartlyRun(t0, AddOps(b0, destination, suffixes), stowaway.table)
             && !RoutesSetUp(t0, b0, destination, stowaway.podPresent)
    {
      ghost var t := stowaway.table;
      AddsReady(t0, b0, destination, suffixes, n, t, b);
      url := EnsureDestination(b.client, destination, localPort, suffixes[n]);
      AddsAfter(t0, b0, destination, suffixes, n, t, b, stowaway.podPresent, url);
    }

    /** The second loop of setup. */
    method SetUpConfig(me: nat, destination: string) returns (r: Result<()>)
      requires Valid() && me < |bridges|
      modifies this`config
      ensures config == old(config) || IsDeclared(base, bridges, None, config)
      ensures r.Success? ==>
        ConfigDone(stowaway.table, old(config), base, bridges, me, destination, |bridges[me].portMappings|, config)
      ensures podsListed && AllReachable(stowaway.table, old(config), bridges[me], destination, |bridges[me].portMappings|) ==>
        config == old(config)
      ensures Parses(bridges[me]) && AllPresent(stowaway.table, bridges[me], destination, |bridges[me].portMappings|) ==>
        && (r.Failure? ==> config == old(config))
        && (r.Success? <==>
            || bridges[me].portMappings == []
            || (podsListed && AllReachable(stowaway.table, old(config), bridges[me], destination, |bridges[me].portMappings|))
            || (Answers() && !Faulty(bridges[me], PortsOf(base))))
    {
      for n := 0 to |bridges[me].portMappings|
        invariant ConfigSteps(stowaway.table, old(config), base, bridges, me, destination, n, config, podsListed, Answers())
      {
        ReachableStep(stowaway.table, old(config), bridges[me], destination, n);
        r := ConfigureMapping(me, destination, n);
        if r.Failure? {
          return;
        }
      }
      ConfigStepsDone(stowaway.table, old(config), base, bridges, me, destination, |bridges[me].portMappings|, config,
                      podsListed, Answers());
      return Success(());
    }

    /** The body of the second loop of setup. */
    method ConfigureMapping(me: nat, destination: string, n: nat) returns (r: Result<()>)
      requires Valid() && me < |bridges| && n < |bridges[me].portMappings|
      modifies this`config
      ensures
        if podsListed && Reachable(stowaway.table, old(config), bridges[me], destination, bridges[me].portMappings[n])
        then r.Success? && config == old(config)
        else if r.Success? then Answers() && Rebuilt(base, bridges, me, config)
        else config == old(config)
      ensures
        (Answers() && ParseMapping(bridges[me].portMappings[n]).Some? && !Faulty(bridges[me], PortsOf(base))
         && HasPeerDest(stowaway.table, bridges[me].client, destination, LocalPort(bridges[me].portMappings[n]))) ==>
        r.Success?
    {
      var b := bridges[me];
      AddFailsIfFaulty(bridges, PortsOf(base), me);
      var parsed := ParseMapping(b.portMappings[n]);
      if parsed.None? {
        return Failure("ValueError");
      }
      var (localPort, targetPort) := parsed.value;
      var url := stowaway.GetDestination(b.client, destination, localPort);
      if url.Failure? {
        return Failure(url.error);
      }
      GotUrl(stowaway.table, b.client, destination, localPort, url);
      if !Faulty(b, PortsOf(base)) {
        FaultlessTargets(b, PortsOf(base), n);
      }
      var present := ProxyRouteExists(targetPort, url.value, b.name);
      if present.Failure? {
        return Failure(present.error);
      }
      if !present.value {
        r := AddProxyRoute(me);
      } else {
        r := Success(());
      }
    }

    /** Intact, as far as the Pods can be asked. */
    ghost predicate SeemsIntact(me: nat)
      reads this, stowaway
      requires me < |bridges|
    {
      Intact(stowaway.table, config, bridges[me]) && (podsListed || bridges[me].portMappings == [])
    }

    /** `is_intact` */
    method IsIntact(me: nat) returns (r: Result<bool>)
      requires Valid() && me < |bridges|
      ensures r == Success(true) <==> SeemsIntact(me)
    {
      var b := bridges[me];
      for n := 0 to |b.portMappings|
        invariant AllReachable(stowaway.table, config, b, b.destinationIP, n) && (podsListed || n == 0)
      {
        var one := MappingIsIntact(b, b.portMappings[n]);
        if one != Success(true) {
          return one;
        }
      }
      return Success(true);
    }

    /** The body of the loop of `is_intact`. */
    method MappingIsIntact(b: Bridge, mapping: string) returns (r: Result<bool>)
      requires Valid()
      ensures r == Success(true) <==> podsListed && Reachable(stowaway.table, config, b, b.destinationIP, mapping)
    {
      var parsed := ParseMapping(mapping);
      if parsed.None? {
        return Failure("ValueError");
      }
      var (localPort, targetPort) := parsed.value;
      var present := stowaway.DestinationExists(b.client, b.destinationIP, localPort);
      if !present {
        NoUrl(stowaway.table, b.client, b.destinationIP, localPort);
        return Success(false);
      }
      var url := stowaway.GetDestination(b.client, b.destinationIP, localPort);
      GotUrl(stowaway.table, b.client, b.destinationIP, localPort, url);
      r := ProxyRouteExists(targetPort, url.value, b.name);
    }

    /** `handle_proxyroute_teardown`: failures to reach the Pods are logged; only a malformed mapping raises. */
    method HandleProxyrouteTeardown(me: nat, destination: string) returns (r: Result<()>)
      requires Valid() && me < |bridges|
      requires AddressOwned(stowaway.table, bridges[me].client, destination)
      modifies this`config, stowaway`routes, stowaway`services, stowaway`table
      ensures Valid()
      ensures r.Success? <==> Parses(bridges[me])
      ensures r.Success? ==> stowaway.table == Run(old(stowaway.table), RemoveOps(bridges[me], destination))
      ensures TeardownStep(base, old(stowaway.table), bridges, old(config), me, destination, stowaway.table, config)
      ensures r.Success? ==>
        ConfigTornDown(old(stowaway.table), old(config), base, bridges, me, destination, Answers(),
                       |bridges[me].portMappings|, config)
    {
      ghost var t0 := stowaway.table;
      ghost var n;
      r, n := TearDownMappings(me, destination);
      RemovesEnd(t0, bridges[me], destination, n, stowaway.table);
    }

    /** The loop of teardown, up to the mapping `n` that raises. */
    method TearDownMappings(me: nat, destination: string) returns (r: Result<()>, ghost n: nat)
      requires Valid() && me < |bridges|
      requires AddressOwned(stowaway.table, bridges[me].client, destination)
      modifies this`config, stowaway`routes, stowaway`services, stowaway`table
      ensures Valid()
      ensures RoutesRemoved(old(stowaway.table), bridges[me], destination, n, stowaway.table)
      ensures ConfigTornDown(old(stowaway.table), old(config), base, bridges, me, destination, Answers(), n, config)
      ensures ParsesUpTo(bridges[me], n)
      ensures r.Success? <==> n == |bridges[me].portMappings|
      ensures n < |bridges[me].portMappings| ==> ParseMapping(bridges[me].portMappings[n]).None?
    {
      ghost var t0, config0 := stowaway.table, config;
      RemovesStart(t0, bridges[me], destination);
      for i := 0 to |bridges[me].portMappings|
        invariant Valid()
        invariant RoutesRemoved(t0, bridges[me], destination, i, stowaway.table)
        invariant ConfigTornDown(t0, config0, base, bridges, me, destination, Answers(), i, config)
        invariant ParsesUpTo(bridges[me], i)
      {
        var ok := TearDownAt(me, destination, i, t0, config0);
        if !ok {
          return Failure("ValueError"), i;
        }
      }
      return Success(()), |bridges[me].portMappings|;
    }

    /** The step of teardown at mapping `i`; `false` where it raises. */
    method TearDownAt(me: nat, destination: string, i: nat, ghost t0: Table, ghost config0: seq<Proxy>) returns (ok: bool)
      requires Valid() && me < |bridges| && i < |bridges[me].portMappings|
      requires AddressOwned(t0, bridges[me].client, destination)
      requires RoutesRemoved(t0, bridges[me], destination, i, stowaway.table)
      requires ConfigTornDown(t0, config0, base, bridges, me, destination, Answers(), i, config)
      modifies this`config, stowaway`routes, stowaway`services, stowaway`table
      ensures Valid()
      ensures ok <==> ParseMapping(bridges[me].portMappings[i]).Some?
      ensures RoutesRemoved(t0, bridges[me], destination, if ok then i + 1 else i, stowaway.table)
      ensures ConfigTornDown(t0, config0, base, bridges, me, destination, Answers(), if ok then i + 1 else i, config)
    {
      ghost var t, c := stowaway.table, config;
      var parsed := ParseMapping(bridges[me].portMappings[i]);
      if parsed.None? {
        return false;
      }
      RemovesOwned(t0, bridges[me], destination, i, t);
      TearDownMapping(me, destination, parsed.value.0, parsed.value.1, bridges[me].portMappings[i]);
      RemovesStep(t0, bridges[me], destination, i, t, stowaway.table);
      ConfigStep(t0, config0, base, bridges, me, destination, Answers(), i, t, c, config);
      return true;
    }

    /** The body of the loop of teardown. */
    method TearDownMapping(me: nat, destination: string, localPort: nat, targetPort: string, ghost mapping: string)
      requires Valid() && me < |bridges|
      requires AddressOwned(stowaway.table, bridges[me].client, destination)
      requires ParseMapping(mapping) == Some((localPort, targetPort))
      modifies this`config, stowaway`routes, stowaway`services, stowaway`table
      ensures Valid()
      ensures stowaway.table == Apply(old(stowaway.table), Remove(destination, localPort))
      ensures MappingTornDown(old(stowaway.table), old(config), base, bridges, me, destination, Answers(), mapping, config)
    {
      var b := bridges[me];
      OwnedDest(stowaway.table, b.client, destination, localPort);
      var present := stowaway.DestinationExists(b.client, destination, localPort);
      if present {
        var url := stowaway.GetDestination(b.client, destination, localPort);
        GotUrl(stowaway.table, b.client, destination, localPort, url);
        var configured := ProxyRouteExists(targetPort, url.value, b.name);
        if configured == Success(true) {
          var _ := RemoveProxyRoute(me);
        }
        var _ := stowaway.RemoveDestination(b.client, destination, localPort);
      } else {
        NoUrl(stowaway.table, b.client, destination, localPort);
        assert RemoveDest(stowaway.table, destination, localPort) == stowaway.table;
      }
    }
  }

  /** Only `clusterEndpoint` of bridge `me` differs. */
  ghost predicate SameButEndpoints(before: seq<Bridge>, after: seq<Bridge>, me: nat) {
    && |after| == |before| && me < |before|
    && (forall i {:trigger after[i]} :: 0 <= i < |before| && i != me ==> after[i] == before[i])
    && after[me] == before[me].(endpoints := after[me].endpoints)
  }

  predicate ParsesUpTo(b: Bridge, n: nat)
    requires n <= |b.portMappings|
  {
    forall i {:trigger b.portMappings[i]} :: 0 <= i < n ==> ParseMapping(b.portMappings[i]).Some?
  }

  /** The first `n` steps of a teardown remove exactly the routes for the address on their local ports. */
  ghost predicate RoutesRemoved(t0: Table, b: Bridge, ip: string, n: nat, t: Table) {
    && n <= |b.portMappings| && t == Run(t0, RemoveOps(b, ip)[..n])
    && (forall p :: p in t <==> p in t0 && !(t0[p].ip == ip && MapsBefore(b, n, t0[p].port)))
    && (forall p :: p in t ==> t[p] == t0[p])
  }

  /** The first `n` steps of a teardown rebuild the configuration without the bridge exactly if one was configured. */
  ghost predicate ConfigTornDown(t0: Table, config0: seq<Proxy>, base: seq<Proxy>, bridges: seq<Bridge>, me: nat, ip: string,
                                 answers: bool, n: nat, config: seq<Proxy>)
    requires me < |bridges| && n <= |bridges[me].portMappings|
  {
    if answers && SomeConfigured(t0, config0, bridges[me], ip, n)
    then IsDeclared(base, bridges, Some(bridges[me].name), config) else config == config0
  }

  /** The same for one mapping. */
  ghost predicate MappingTornDown(t: Table, config: seq<Proxy>, base: seq<Proxy>, bridges: seq<Bridge>, me: nat, ip: string,
                                  answers: bool, mapping: string, config': seq<Proxy>)
    requires me < |bridges|
  {
    if answers && Reachable(t, config, bridges[me], ip, mapping)
    then IsDeclared(base, bridges, Some(bridges[me].name), config') else config' == config
  }

  lemma RemovesOwned(t0: Table, b: Bridge, ip: string, n: nat, t: Table)
    requires RoutesRemoved(t0, b, ip, n, t) && AddressOwned(t0, b.client, ip)
    ensures AddressOwned(t, b.client, ip)
  {
  }

  lemma RemovesStart(t0: Table, b: Bridge, ip: string)
    ensures RoutesRemoved(t0, b, ip, 0, t0)
  {
    assert t0 == Run(t0, RemoveOps(b, ip)[..0]);
  }

  lemma RemovesStep(t0: Table, b: Bridge, ip: string, n: nat, t: Table, t': Table)
    requires n < |b.portMappings| && RoutesRemoved(t0, b, ip, n, t)
    requires t' == Apply(t, Remove(ip, LocalPort(b.portMappings[n])))
    ensures RoutesRemoved(t0, b, ip, n + 1, t')
  {
    RunStep(t0, RemoveOps(b, ip), n, t);
    forall port
      ensures MapsBefore(b, n + 1, port) <==> MapsBefore(b, n, port) || LocalPort(b.portMappings[n]) == port
    {
    }
  }

  lemma RemovesEnd(t0: Table, b: Bridge, ip: string, n: nat, t: Table)
    requires RoutesRemoved(t0, b, ip, n, t)
    ensures n == |b.portMappings| ==> t == Run(t0, RemoveOps(b, ip))
    ensures PartlyRun(t0, RemoveOps(b, ip), t)
  {
    var ops := RemoveOps(b, ip);
    assert ops[..|ops|] == ops;
  }

  /** A mapping is reachable at its turn if it was at first and no mapping before it has removed its route. */
  lemma ReachableAtTurn(t0: Table, config: seq<Proxy>, b: Bridge, ip: string, n: nat, t: Table)
    requires n < |b.portMappings| && RoutesRemoved(t0, b, ip, n, t)
    ensures Reachable(t, config, b, ip, b.portMappings[n]) <==>
      Reachable(t0, config, b, ip, b.portMappings[n]) && !MapsBefore(b, n, LocalPort(b.portMappings[n]))
  {
    var port := LocalPort(b.portMappings[n]);
    forall url
      ensures UrlIs(t, b.client, ip, port, url) <==> UrlIs(t0, b.client, ip, port, url) && !MapsBefore(b, n, port)
    {
      if p :| p in t0 && ServesPeer(t0[p], b.client, ip, port) && url == Url(p) && !MapsBefore(b, n, port) {
        assert p in t && t[p] == t0[p];
      }
      if p :| p in t && ServesPeer(t[p], b.client, ip, port) && url == Url(p) {
        assert ServesPeer(t0[p], b.client, ip, port);
      }
    }
  }

  lemma ConfigStep(t0: Table, config0: seq<Proxy>, base: seq<Proxy>, bridges: seq<Bridge>, me: nat, ip: string,
                   answers: bool, n: nat, t: Table, config: seq<Proxy>, config': seq<Proxy>)
    requires me < |bridges| && n < |bridges[me].portMappings|
    requires RoutesRemoved(t0, bridges[me], ip, n, t)
    requires ConfigTornDown(t0, config0, base, bridges, me, ip, answers, n, config)
    requires MappingTornDown(t, config, base, bridges, me, ip, answers, bridges[me].portMappings[n], config')
    ensures ConfigTornDown(t0, config0, base, bridges, me, ip, answers, n + 1, config')
  {
    var b := bridges[me];
    ReachableAtTurn(t0, config, b, ip, n, t);
    SomeConfiguredStep(t0, config0, b, ip, n);
  }

  lemma SomeConfiguredStep(t: Table, config: seq<Proxy>, b: Bridge, ip: string, n: nat)
    requires n < |b.portMappings|
    ensures SomeConfigured(t, config, b, ip, n + 1) <==>
      || SomeConfigured(t, config, b, ip, n)
      || (!MapsBefore(b, n, LocalPort(b.portMappings[n])) && Reachable(t, config, b, ip, b.portMappings[n]))
  {
  }

  lemma ReachableSame(t: Table, config: seq<Proxy>, b: Bridge, b': Bridge, ip: string)
    requires b' == b.(endpoints := b'.endpoints)
    ensures AllReachable(t, config, b', ip, |b'.portMappings|) <==> AllReachable(t, config, b, ip, |b.portMappings|)
  {
    forall i | 0 <= i < |b.portMappings|
      ensures Reachable(t, config, b', ip, b'.portMappings[i]) <==> Reachable(t, config, b, ip, b.portMappings[i])
    {
    }
  }

  /** What the second loop of setup needs, in terms of the bridge before the first. */
  lemma ConfigSetUpIff(t: Table, config: seq<Proxy>, b: Bridge, b': Bridge, ip: string, ports: seq<nat>, listed: bool, answers: bool)
    requires b' == b.(endpoints := b'.endpoints) && Parses(b') && LastEndpoints(t, b', ip, |b'.portMappings|)
    ensures AllReachable(t, config, b', ip, |b'.portMappings|) <==> AllReachable(t, config, b, ip, |b.portMappings|)
    ensures OwnEndpoints(b') ==>
      (ConfigSetUp(t, config, b, ip, ports, listed, answers) <==>
       || b'.portMappings == [] || (listed && AllReachable(t, config, b', ip, |b'.portMappings|))
       || (answers && !Faulty(b', ports)))
  {
    FaultyIff(t, b', ip, ports);
    DeployableSame(b, b', ports);
    ReachableSame(t, config, b, b', ip);
  }

  lemma DeployableSame(b: Bridge, b': Bridge, ports: seq<nat>)
    requires b' == b.(endpoints := b'.endpoints)
    ensures Deployable(b', ports) <==> Deployable(b, ports)
    ensures Parses(b') <==> Parses(b)
    ensures Deployable(b, ports) ==> Parses(b)
  {
    forall i | 0 <= i < |b.portMappings|
      ensures DeployableMapping(b', ports, b.portMappings[i]) <==> DeployableMapping(b, ports, b.portMappings[i])
    {
    }
  }

  /** With distinct names, adding a bridge fails exactly if that bridge is faulty. */
  lemma AddFailsIfFaulty(bridges: seq<Bridge>, ports: seq<nat>, me: nat)
    requires me < |bridges| && DistinctBridges(bridges)
    ensures AddFails(bridges, ports, Some(bridges[me].name), None) <==> Faulty(bridges[me], ports)
  {
    if Faulty(bridges[me], ports) {
      assert FailsAdding(bridges[me], ports, Some(bridges[me].name), None);
    }
    if AddFails(bridges, ports, Some(bridges[me].name), None) {
      var i :| 0 <= i < |bridges| && FailsAdding(bridges[i], ports, Some(bridges[me].name), None);
      assert i == me;
    }
  }

  lemma NoUrl(t: Table, client: string, ip: string, port: nat)
    requires !HasPeerDest(t, client, ip, port)
    ensures forall url :: !UrlIs(t, client, ip, port, url)
  {
  }

  lemma GotUrl(t: Table, client: string, ip: string, port: nat, url: Result<string>)
    requires TableOk(t) && HasPeerDest(t, client, ip, port)
    requires forall p :: p in t && ServesPeer(t[p], client, ip, port) ==> url == Success(Url(p))
    ensures url.Success? && UrlIs(t, client, ip, port, url.value)
    ensures forall other :: UrlIs(t, client, ip, port, other) ==> other == url.value
  {
    var p :| p in t && ServesPeer(t[p], client, ip, port);
    assert url == Success(Url(p));
  }

  lemma Patched(bridges: seq<Bridge>, me: nat, key: string, url: string)
    requires me < |bridges| && DistinctBridges(bridges)
    ensures var after := bridges[me := PatchEndpoint(bridges[me], key, url)];
      DistinctBridges(after) && SameButEndpoints(bridges, after, me)
  {
  }

  lemma OwnedDest(t: Table, client: string, ip: string, port: nat)
    requires AddressOwned(t, client, ip)
    ensures HasPeerDest(t, client, ip, port) <==> HasDest(t, ip, port)
  {
    if p :| p in t && Serves(t[p], ip, port) {
      assert ServesPeer(t[p], client, ip, port);
    }
    if p :| p in t && ServesPeer(t[p], client, ip, port) {
      assert Serves(t[p], ip, port);
    }
  }
}

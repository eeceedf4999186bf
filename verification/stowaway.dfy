/**
  The Stowaway connection provider: the proxy route ConfigMap and the proxy Services, edited in place.
  Dictionaries are maps whose iteration order is left open. The ghost `table` is what both stores encode.
 */
module StowawayProvider {
  import opened Wrappers
  import opened Text
  import opened Encoding
  import opened Table
  import opened Objects
  import opened Collector
  import opened Sets

  lemma TakenIsTable(routes: map<string, string>, t: Table)
    requires TableOk(t) && EncodesRoutes(routes, t)
    ensures TakenPorts(routes) == t.Keys
  {
    forall p | p in t
      ensures p in TakenPorts(routes)
    {
      RouteDecodes(t[p], p);
      assert RouteKey(t[p]) in routes;
    }
  }

  /** The stores after `add_destination`, in terms of the stores alone. */
  lemma AddedStores(routes: map<string, string>, services: map<string, Service>, t: Table, row: Row)
    requires Agree(routes, services, t)
    requires CleanIp(row.ip) && Fresh(t, row) && !HasDest(t, row.ip, row.port)
    ensures TakenPorts(routes) == t.Keys
    ensures match FreePort(TakenPorts(routes))
      case Some(p) => Agree(routes[RouteKey(row) := RouteValue(row, p)], services[ServiceName(p) := ServiceOf(row)], AddRow(t, row))
      case None => Agree(routes, services, AddRow(t, row))
  {
    TakenIsTable(routes, t);
    if FreePort(t.Keys).Some? {
      AddAgrees(routes, services, t, row, FreePort(t.Keys).value);
    }
  }

  lemma FreeSkips(taken: set<nat>, p: nat, q: nat)
    requires p <= q <= END_PORT && forall x :: p <= x < q ==> x in taken
    ensures FreeFrom(taken, p) == FreeFrom(taken, q)
    decreases q - p
  {
    if p < q {
      FreeSkips(taken, p + 1, q);
    }
  }

  /** Everything the loops need to know about the route stored under `k`. */
  lemma RouteAt(routes: map<string, string>, t: Table, k: string)
    requires TableOk(t) && EncodesRoutes(routes, t) && k in routes
    ensures var p := ProxyPortOf(routes[k]);
      && p in t && k == RouteKey(t[p])
      && DestOf(routes[k]) == Dest(t[p].ip, t[p].port) && IpOf(routes[k]) == t[p].ip
      && ProxyPortText(routes[k]) == Str(p) && PeerOf(k) == t[p].peer
  {
    var p := ProxyPortOf(routes[k]);
    assert p in t && k == RouteKey(t[p]);
    RouteDecodes(t[p], p);
    PeerDecodes(t[p]);
  }

  lemma ServiceAt(services: map<string, Service>, t: Table, n: string, peer: string, ip: string, port: nat)
    requires EncodesServices(services, t) && n in services && services[n] == Service(peer, Label(ip, port))
    ensures var p := ServicePortOf(n); p in t && n == ServiceName(p) && ServesPeer(t[p], peer, ip, port)
  {
    var p := ServicePortOf(n);
    assert p in t && n == ServiceName(p);
    LabelInjective(t[p].ip, t[p].port, ip, port);
  }

  lemma RowService(services: map<string, Service>, t: Table, p: nat)
    requires EncodesServices(services, t) && p in t
    ensures ServiceName(p) in services && services[ServiceName(p)] == Service(t[p].peer, Label(t[p].ip, t[p].port))
  {
  }

  lemma RouteContainsDest(row: Row, p: nat)
    ensures Contains(RouteValue(row, p), Dest(row.ip, row.port))
  {
    assert Occurs(RouteValue(row, p), Dest(row.ip, row.port), 0);
  }

  /** The substring test alone is not membership: a port's text is a prefix of ten longer ports' texts. */
  lemma SubstringAloneIsNotMembership(row: Row, p: nat, port: nat)
    requires port > 0 && row.port / 10 == port
    ensures Contains(RouteValue(row, p), Dest(row.ip, port)) && !Serves(row, row.ip, port)
  {
    assert Str(row.port) == Str(port) + [DigitChar(row.port % 10)];
    assert Dest(row.ip, row.port) == Dest(row.ip, port) + [DigitChar(row.port % 10)];
    assert Occurs(RouteValue(row, p), Dest(row.ip, port), 0);
  }

  /** What `_edit_proxyroutes_configmap(remove=...)` does to the ConfigMap, `picked` being the route it found last. */
  ghost predicate RemovesPicked(routes: map<string, string>, dest: string,
                                routes': map<string, string>, port: nat, picked: Option<string>)
  {
    match picked
    case None => routes' == routes && port == 0 && forall k :: k in routes ==> DestOf(routes[k]) != dest
    case Some(k) =>
      k in routes && DestOf(routes[k]) == dest && routes' == routes - {k} && port == ProxyPortOf(routes[k])
  }

  /**
    What `_edit_proxyroutes_configmap(add=...)` does to the ConfigMap: an entry on the least port from 10000 to 59999
    that no stored value carries, or nothing if there is none.
   */
  ghost predicate AddsLeastFree(routes: map<string, string>, key: string, dest: string,
                                routes': map<string, string>, added: Option<nat>)
  {
    match added
    case Some(p) =>
      && 10000 <= p < 60000 && !PortStored(routes, p) && (forall q :: 10000 <= q < p ==> PortStored(routes, q))
      && routes' == routes[key := dest + "," + Str(p)]
    case None => routes' == routes && forall q :: 10000 <= q < 60000 ==> PortStored(routes, q)
  }

  ghost predicate PortStored(routes: map<string, string>, p: nat) {
    exists k :: k in routes && ProxyPortOf(routes[k]) == p
  }

  lemma LeastFree(routes: map<string, string>, key: string, dest: string)
    ensures var added := FreePort(TakenPorts(routes));
      AddsLeastFree(routes, key, dest, if added.Some? then routes[key := RouteValueOf(dest, added.value)] else routes, added)
  {
    forall q
      ensures q in TakenPorts(routes) <==> PortStored(routes, q)
    {
    }
  }

  ghost predicate SomeServiceHas(services: map<string, Service>, labels: Service) {
    exists n :: n in services && services[n] == labels
  }

  ghost predicate SomeRouteContains(routes: map<string, string>, text: string) {
    exists k :: k in routes && Contains(routes[k], text)
  }

  function JudgeRoute(bridges: seq<Bridge>, key: string, value: string): Verdict {
    Judge(bridges, PeerOf(key), IpOf(value), ProxyPortText(value))
  }

  /** `final_routes` */
  function FinalRoutes(routes: map<string, string>, bridges: seq<Bridge>): map<string, string> {
    map k | k in routes && JudgeRoute(bridges, k, routes[k]).Kept? :: routes[k]
  }

  /** `to_be_removed_svcs` */
  function RemovedServices(routes: map<string, string>, bridges: seq<Bridge>): set<string> {
    set k | k in routes && JudgeRoute(bridges, k, routes[k]).Debris? :: SERVICE_PREFIX + ProxyPortText(routes[k])
  }

  class Stowaway {
    var routes: map<string, string>
    var services: map<string, Service>
    /** Whether a Stowaway Pod can be found to be notified. */
    var podPresent: bool
    ghost var table: Table

    ghost predicate Valid()
      reads this
    {
      Agree(routes, services, table)
    }

    constructor (podPresent: bool)
      ensures Valid() && table == map[] && routes == map[] && services == map[]
      ensures this.podPresent == podPresent
    {
      this.routes, this.services := map[], map[];
      this.podPresent := podPresent;
      this.table := map[];
    }

    /** `_get_free_proxyroute_port` */
    method GetFreeProxyroutePort() returns (r: Result<nat>)
      ensures r == match FreePort(TakenPorts(routes))
        case Some(p) => Success(p)
        case None => Failure("No free port found for proxy route")
    {
      var taken: set<nat> := {};
      var pending := routes.Keys;
      while pending != {}
        invariant pending <= routes.Keys
        invariant taken == set k | k in routes.Keys - pending :: ProxyPortOf(routes[k])
      {
        var k :| k in pending;
        taken := taken + {ProxyPortOf(routes[k])};
        pending := pending - {k};
      }
      assert taken == TakenPorts(routes);
      for port := FIRST_PORT to END_PORT
        invariant forall q :: FIRST_PORT <= q < port ==> q in taken
      {
        if port !in taken {
          FreeSkips(taken, FIRST_PORT, port);
          return Success(port);
        }
      }
      FreeSkips(taken, FIRST_PORT, END_PORT);
      return Failure("No free port found for proxy route");
    }

    /** `_edit_proxyroutes_configmap(add=...)`; `suffix` is what `random.choices` drew. */
    method EditProxyroutesAdd(peer: string, dest: string, suffix: string) returns (r: Result<nat>)
      modifies this`routes
      ensures match FreePort(TakenPorts(old(routes)))
        case Some(p) => r == Success(p) && routes == old(routes)[peer + "-" + suffix := RouteValueOf(dest, p)]
        case None => r == Failure("No free port found for proxy route") && routes == old(routes)
      ensures AddsLeastFree(old(routes), peer + "-" + suffix, dest, routes, if r.Success? then Some(r.value) else None)
    {
      LeastFree(routes, peer + "-" + suffix, dest);
      r := GetFreeProxyroutePort();
      if r.Success? {
        routes := routes[peer + "-" + suffix := RouteValueOf(dest, r.value)];
      }
    }

    /** `_edit_proxyroutes_configmap(remove=...)`: the last match in iteration order goes, whatever its peer. */
    method EditProxyroutesRemove(dest: string) returns (port: nat, ghost picked: Option<string>)
      modifies this`routes
      ensures RemovesPicked(old(routes), dest, routes, port, picked)
    {
      var toBeDeleted: Option<string> := None;
      port := 0;
      var pending := routes.Keys;
      while pending != {}
        invariant pending <= routes.Keys
        invariant toBeDeleted.None? ==>
          (port == 0 && forall k :: k in routes && k !in pending ==> DestOf(routes[k]) != dest)
        invariant toBeDeleted.Some? ==>
          (toBeDeleted.value in routes && DestOf(routes[toBeDeleted.value]) == dest
           && port == ProxyPortOf(routes[toBeDeleted.value]))
      {
        var k :| k in pending;
        if DestOf(routes[k]) == dest {
          toBeDeleted := Some(k);
          port := ProxyPortOf(routes[k]);
        }
        pending := pending - {k};
      }
      if toBeDeleted.Some? {
        routes := routes - {toBeDeleted.value};
      }
      picked := toBeDeleted;
    }

    /** A new destination under a fresh key, with an address that the collector can read. */
    ghost predicate Addable(row: Row)
      reads this
    {
      CleanIp(row.ip) && Fresh(table, row) && !HasDest(table, row.ip, row.port)
    }

    /**
      `add_destination`: a route on the least free port, a Service on that port, and its URL. Routes and Services stay
      in agreement if the destination is new, as its caller has made sure.
     */
    method AddDestination(peer: string, ip: string, port: nat, suffix: string) returns (r: Result<string>)
      modifies this`routes, this`services, this`table
      ensures r == match FreePort(TakenPorts(old(routes)))
        case Some(p) => if podPresent then Success(Url(p)) else Failure("No Stowaway Pod found for destination addition")
        case None => Failure("No free port found for proxy route")
      ensures match FreePort(TakenPorts(old(routes)))
        case Some(p) =>
          (routes == old(routes)[RouteKey(Row(peer, suffix, ip, port)) := RouteValue(Row(peer, suffix, ip, port), p)]
           && services == old(services)[ServiceName(p) := ServiceOf(Row(peer, suffix, ip, port))])
        case None => routes == old(routes) && services == old(services)
      ensures table == AddRow(old(table), Row(peer, suffix, ip, port))
      ensures old(Valid() && Addable(Row(peer, suffix, ip, port))) ==>
        Valid() && TakenPorts(old(routes)) == old(table.Keys)
    {
      ghost var row := Row(peer, suffix, ip, port);
      if Valid() && Addable(row) {
        AddedStores(routes, services, table, row);
      }
      var edited := StoreDestination(peer, ip, port, suffix);
      table := AddRow(table, row);
      if edited.Failure? {
        return Failure(edited.error);
      }
      if !podPresent {
        return Failure("No Stowaway Pod found for destination addition");
      }
      return Success(Url(edited.value));
    }

    /** The two writes of `add_destination`. */
    method StoreDestination(peer: string, ip: string, port: nat, suffix: string) returns (r: Result<nat>)
      modifies this`routes, this`services
      ensures match FreePort(TakenPorts(old(routes)))
        case Some(p) =>
          (r == Success(p)
           && routes == old(routes)[RouteKey(Row(peer, suffix, ip, port)) := RouteValue(Row(peer, suffix, ip, port), p)]
           && services == old(services)[ServiceName(p) := ServiceOf(Row(peer, suffix, ip, port))])
        case None => r == Failure("No free port found for proxy route") && routes == old(routes) && services == old(services)
    {
      r := EditProxyroutesAdd(peer, Dest(ip, port), suffix);
      if r.Success? {
        // created, or patched on conflict: either way the Service under this name carries these labels
        services := services[ServiceName(r.value) := Service(peer, Label(ip, port))];
      }
    }

    /** `get_destination`: the first Service with the labels, and the port in its name. */
    method GetDestination(peer: string, ip: string, port: nat) returns (r: Result<string>)
      requires Valid()
      ensures forall p :: p in table && ServesPeer(table[p], peer, ip, port) ==> r == Success(Url(p))
      ensures r.Failure? <==> !HasPeerDest(table, peer, ip, port)
    {
      var matching := set n | n in services && services[n] == Service(peer, Label(ip, port));
      forall p | p in table && ServesPeer(table[p], peer, ip, port)
        ensures ServiceName(p) in matching
      {
        RowService(services, table, p);
      }
      if matching == {} {
        return Failure("no proxy service found");
      }
      var name :| name in matching;
      ServiceAt(services, table, name, peer, ip, port);
      ServicePortDecodes(ServicePortOf(name));
      var parts := CutLast(name, '-');
      return Success(Host(name) + ":" + parts.value.1);
    }

    /** `destination_exists`: under agreement its two tests together are exact membership. */
    method DestinationExists(peer: string, ip: string, port: nat) returns (b: bool)
      requires Valid()
      ensures b <==> HasPeerDest(table, peer, ip, port)
    {
      ExistsIff(routes, services, table, peer, ip, port);
      b := LookUpDestination(Service(peer, Label(ip, port)), Dest(ip, port));
    }

    /** A Service with the labels, and the destination somewhere in a route. */
    method LookUpDestination(labels: Service, text: string) returns (b: bool)
      ensures b <==> SomeServiceHas(services, labels) && SomeRouteContains(routes, text)
    {
      var matching := set n | n in services && services[n] == labels;
      if matching == {} {
        assert forall n :: n in services ==> n !in matching;
        return false;
      }
      assert exists n :: n in matching;
      b := AnyRouteContains(text);
    }

    /** The loop of `destination_exists` over the values of the ConfigMap. */
    method AnyRouteContains(text: string) returns (b: bool)
      ensures b <==> SomeRouteContains(routes, text)
    {
      var pending := routes.Keys;
      while pending != {}
        invariant pending <= routes.Keys
        invariant forall k :: k in routes && Contains(routes[k], text) ==> k in pending
      {
        var k :| k in pending;
        if Contains(routes[k], text) {
          return true;
        }
        pending := pending - {k};
      }
      return false;
    }

    /** `remove_destination`: the route goes, then the Service on the port it had; a missing Service is no error. */
    method RemoveDestination(peer: string, ip: string, port: nat) returns (r: Result<()>)
      requires Valid()
      modifies this`routes, this`services, this`table
      ensures Valid()
      ensures table == RemoveDest(old(table), ip, port)
      ensures r == if podPresent then Success(()) else Failure("No Stowaway Pod found for destination removal")
    {
      ghost var before := table;
      ghost var proxyPort, picked := DropDestination(Dest(ip, port));
      table := RemoveDest(table, ip, port);
      RemovedStores(old(routes), old(services), before, ip, port, routes, proxyPort, picked);
      if !podPresent {
        return Failure("No Stowaway Pod found for destination removal");
      }
      return Success(());
    }

    /** The two writes of `remove_destination`. */
    method DropDestination(dest: string) returns (ghost proxyPort: nat, ghost picked: Option<string>)
      modifies this`routes, this`services
      ensures RemovesPicked(old(routes), dest, routes, proxyPort, picked)
      ensures services == old(services) - {ServiceName(proxyPort)}
    {
      var port, found := EditProxyroutesRemove(dest);
      DeleteService(ServiceName(port));
      proxyPort, picked := port, found;
    }

    /** Deletes a Service; status 404 is ignored. */
    method DeleteService(name: string)
      modifies this`services
      ensures services == old(services) - {name}
    {
      if name in services {
        services := services - {name};
      }
    }

    /** `reconcile_proxyroutes`. The result says whether it raised. */
    method ReconcileProxyroutes(bridges: seq<Bridge>, ready: bool) returns (r: Result<()>)
      requires Valid()
      modifies this`routes, this`services, this`table
      ensures Valid()
      ensures r.Failure? <==> ready && CollectRaises(old(table), bridges)
      ensures table == if ready && !CollectRaises(old(table), bridges) then Collected(old(table), bridges) else old(table)
    {
      if !ready {
        return Success(());
      }
      SiftedRoutes(routes, table, bridges);
      if |bridges| == 0 {
        EmptyStores(routes, services, table, bridges);
        DeleteServicesOfRoutes();
        routes := map[];
        table := Collected(table, bridges);
        return Success(());
      }
      var sifted := SiftRoutes(bridges);
      if sifted.Failure? {
        return Failure(sifted.error);
      }
      CollectedStores(routes, services, table, bridges);
      ReplaceRoutes(sifted.value.0, sifted.value.1, bridges);
      table := Collected(table, bridges);
      return Success(());
    }

    /** Writes back only if fewer routes are left, which detects every change as the kept ones are a subset. */
    method ReplaceRoutes(finalRoutes: map<string, string>, removed: set<string>, ghost bridges: seq<Bridge>)
      requires forall k :: k in routes ==> !JudgeRoute(bridges, k, routes[k]).Raises?
      requires finalRoutes == FinalRoutes(routes, bridges) && removed == RemovedServices(routes, bridges)
      modifies this`routes, this`services
      ensures routes == finalRoutes && services == old(services) - removed
    {
      if |finalRoutes| != |routes| {
        routes := finalRoutes;
        services := services - removed;
      } else {
        assert |finalRoutes.Keys| == |routes.Keys|;
        SubsetCardinality(finalRoutes.Keys, routes.Keys);
        assert finalRoutes == routes;
        assert removed == {};
        assert services - removed == services;
      }
    }

    /** The branch without bridges: the Services of all routes go. */
    method DeleteServicesOfRoutes()
      modifies this`services
      ensures services == old(services) - set k | k in routes :: SERVICE_PREFIX + ProxyPortText(routes[k])
    {
      var pending := routes.Keys;
      ghost var done: set<string> := {};
      while pending != {}
        invariant pending <= routes.Keys
        invariant done == set k | k in routes.Keys - pending :: SERVICE_PREFIX + ProxyPortText(routes[k])
        invariant services == old(services) - done
      {
        var k :| k in pending;
        DeleteService(SERVICE_PREFIX + ProxyPortText(routes[k]));
        done := done + {SERVICE_PREFIX + ProxyPortText(routes[k])};
        pending := pending - {k};
      }
      assert done == set k | k in routes :: SERVICE_PREFIX + ProxyPortText(routes[k]);
    }

    /** The loop that fills `final_routes` and `to_be_removed_svcs`. */
    method SiftRoutes(bridges: seq<Bridge>) returns (r: Result<(map<string, string>, set<string>)>)
      ensures r.Failure? <==> exists k :: k in routes && JudgeRoute(bridges, k, routes[k]).Raises?
      ensures r.Success? ==> r.value == (FinalRoutes(routes, bridges), RemovedServices(routes, bridges))
    {
      var finalRoutes: map<string, string> := map[];
      var removed: set<string> := {};
      var pending := routes.Keys;
      while pending != {}
        invariant pending <= routes.Keys
        invariant forall k :: k in routes && k !in pending ==> !JudgeRoute(bridges, k, routes[k]).Raises?
        invariant forall k :: k in finalRoutes ==>
          k in routes && k !in pending && JudgeRoute(bridges, k, routes[k]).Kept? && finalRoutes[k] == routes[k]
        invariant forall k :: k in routes && k !in pending && JudgeRoute(bridges, k, routes[k]).Kept? ==> k in finalRoutes
        invariant removed == set k | k in routes && k !in pending && JudgeRoute(bridges, k, routes[k]).Debris?
          :: SERVICE_PREFIX + ProxyPortText(routes[k])
      {
        var k :| k in pending;
        var verdict := JudgeLoop(bridges, PeerOf(k), IpOf(routes[k]), ProxyPortText(routes[k]));
        match verdict {
          case Raises =>
            return Failure("KeyError: clusterEndpoint");
          case Kept =>
            finalRoutes := finalRoutes[k := routes[k]];
          case Debris =>
            removed := removed + {SERVICE_PREFIX + ProxyPortText(routes[k])};
        }
        pending := pending - {k};
      }
      assert finalRoutes == FinalRoutes(routes, bridges);
      assert removed == RemovedServices(routes, bridges);
      return Success((finalRoutes, removed));
    }
  }

  /** The inner loop over the bridges with its `break` and `else`. */
  method JudgeLoop(bridges: seq<Bridge>, peer: string, ip: string, portText: string) returns (v: Verdict)
    ensures v == Judge(bridges, peer, ip, portText)
  {
    for i := 0 to |bridges|
      invariant Judge(bridges, peer, ip, portText) == Judge(bridges[i..], peer, ip, portText)
    {
      var bridge := bridges[i];
      assert bridges[i..][0] == bridge && bridges[i..][1..] == bridges[i + 1..];
      if bridge.client == peer && bridge.destinationIP == ip {
        if bridge.endpoints.None? {
          return Raises;
        }
        if NamesPort(bridge, portText) {
          return Kept;
        }
      }
    }
    return Debris;
  }

  lemma NoServiceNoRow(services: map<string, Service>, t: Table, peer: string, ip: string, port: nat)
    requires EncodesServices(services, t)
    ensures HasPeerDest(t, peer, ip, port) <==> SomeServiceHas(services, Service(peer, Label(ip, port)))
  {
    forall p | p in t && ServesPeer(t[p], peer, ip, port)
      ensures SomeServiceHas(services, Service(peer, Label(ip, port)))
    {
      RowService(services, t, p);
    }
    if n :| n in services && services[n] == Service(peer, Label(ip, port)) {
      ServiceAt(services, t, n, peer, ip, port);
    }
  }

  /**
    With routes and Services in agreement the two tests of `destination_exists`, labels and substring, together
    are exact membership.
   */
  lemma ExistsIff(routes: map<string, string>, services: map<string, Service>, t: Table, peer: string, ip: string, port: nat)
    requires Agree(routes, services, t)
    ensures HasPeerDest(t, peer, ip, port) <==>
      SomeServiceHas(services, Service(peer, Label(ip, port))) && SomeRouteContains(routes, Dest(ip, port))
  {
    NoServiceNoRow(services, t, peer, ip, port);
    if HasPeerDest(t, peer, ip, port) {
      var p :| p in t && ServesPeer(t[p], peer, ip, port);
      RowRoute(routes, t, p);
    }
  }

  lemma RowRoute(routes: map<string, string>, t: Table, p: nat)
    requires EncodesRoutes(routes, t) && p in t
    ensures RouteKey(t[p]) in routes && routes[RouteKey(t[p])] == RouteValue(t[p], p)
    ensures Contains(routes[RouteKey(t[p])], Dest(t[p].ip, t[p].port))
  {
    RouteContainsDest(t[p], p);
  }

  lemma SiftedRoutes(routes: map<string, string>, t: Table, bridges: seq<Bridge>)
    requires TableOk(t) && EncodesRoutes(routes, t)
    ensures (exists k :: k in routes && JudgeRoute(bridges, k, routes[k]).Raises?) <==> CollectRaises(t, bridges)
    ensures forall k :: k in routes ==>
      JudgeRoute(bridges, k, routes[k]) == JudgeRow(bridges, t[ProxyPortOf(routes[k])], ProxyPortOf(routes[k]))
  {
    forall k | k in routes
      ensures var p := ProxyPortOf(routes[k]); p in t && JudgeRoute(bridges, k, routes[k]) == JudgeRow(bridges, t[p], p)
    {
      RouteAt(routes, t, k);
    }
    if CollectRaises(t, bridges) {
      var p :| p in t && JudgeRow(bridges, t[p], p).Raises?;
      RouteDecodes(t[p], p);
      var k := RouteKey(t[p]);
      assert k in routes && ProxyPortOf(routes[k]) == p;
    }
  }

  lemma CollectedStores(routes: map<string, string>, services: map<string, Service>, t: Table, bridges: seq<Bridge>)
    requires Agree(routes, services, t) && !CollectRaises(t, bridges)
    ensures Agree(FinalRoutes(routes, bridges), services - RemovedServices(routes, bridges), Collected(t, bridges))
  {
    CollectKeepsOk(t, bridges);
    KeptRoutes(routes, t, bridges);
    KeptServices(routes, services, t, bridges);
  }

  lemma KeptRoutes(routes: map<string, string>, t: Table, bridges: seq<Bridge>)
    requires TableOk(t) && EncodesRoutes(routes, t)
    ensures EncodesRoutes(FinalRoutes(routes, bridges), Collected(t, bridges))
  {
    SiftedRoutes(routes, t, bridges);
    forall k | k in routes
      ensures k in FinalRoutes(routes, bridges) <==> ProxyPortOf(routes[k]) in Collected(t, bridges)
    {
      RouteAt(routes, t, k);
    }
    RestrictEncodesRoutes(routes, t, FinalRoutes(routes, bridges), Collected(t, bridges));
  }

  lemma KeptServices(routes: map<string, string>, services: map<string, Service>, t: Table, bridges: seq<Bridge>)
    requires Agree(routes, services, t) && !CollectRaises(t, bridges)
    ensures EncodesServices(services - RemovedServices(routes, bridges), Collected(t, bridges))
  {
    var removed, t' := RemovedServices(routes, bridges), Collected(t, bridges);
    forall n | n in services
      ensures n in removed <==> ServicePortOf(n) !in t'
    {
      ServiceJudged(routes, t, bridges, ServicePortOf(n));
    }
    RestrictEncodesServices(services, t, services - removed, t');
  }

  /** The Service on a port is removed exactly if its route is debris: no other route has that port. */
  lemma ServiceJudged(routes: map<string, string>, t: Table, bridges: seq<Bridge>, p: nat)
    requires TableOk(t) && EncodesRoutes(routes, t) && p in t
    ensures ServiceName(p) in RemovedServices(routes, bridges) <==> JudgeRow(bridges, t[p], p).Debris?
  {
    SiftedRoutes(routes, t, bridges);
    RouteDecodes(t[p], p);
    var k := RouteKey(t[p]);
    assert k in routes && ProxyPortOf(routes[k]) == p;
    if ServiceName(p) in RemovedServices(routes, bridges) {
      var k' :| k' in routes && JudgeRoute(bridges, k', routes[k']).Debris?
        && ServiceName(p) == SERVICE_PREFIX + ProxyPortText(routes[k']);
      RouteAt(routes, t, k');
      ServiceNameInjective(ProxyPortOf(routes[k']), p);
    } else {
      assert ServiceName(p) == SERVICE_PREFIX + ProxyPortText(routes[k]);
    }
  }

  lemma EmptyStores(routes: map<string, string>, services: map<string, Service>, t: Table, bridges: seq<Bridge>)
    requires Agree(routes, services, t) && bridges == []
    ensures !CollectRaises(t, bridges)
    ensures Agree(map[], services - (set k | k in routes :: SERVICE_PREFIX + ProxyPortText(routes[k])), Collected(t, bridges))
  {
    CollectedStores(routes, services, t, bridges);
    NothingKept(routes, bridges);
  }

  lemma NothingKept(routes: map<string, string>, bridges: seq<Bridge>)
    requires bridges == []
    ensures FinalRoutes(routes, bridges) == map[]
    ensures RemovedServices(routes, bridges) == set k | k in routes :: SERVICE_PREFIX + ProxyPortText(routes[k])
  {
  }

  lemma RemovedStores(routes: map<string, string>, services: map<string, Service>, t: Table, ip: string, port: nat,
                      routes': map<string, string>, removedPort: nat, picked: Option<string>)
    requires Agree(routes, services, t)
    requires RemovesPicked(routes, Dest(ip, port), routes', removedPort, picked)
    ensures Agree(routes', services - {ServiceName(removedPort)}, RemoveDest(t, ip, port))
  {
    RemoveKeepsOk(t, ip, port);
    RemovedIsTheOne(routes, t, ip, port, routes', removedPort, picked);
    RemovedRoutes(routes, t, ip, port, routes', removedPort, picked);
    RemovedService(services, t, ip, port, removedPort);
  }

  lemma RemovedIsTheOne(routes: map<string, string>, t: Table, ip: string, port: nat,
                        routes': map<string, string>, removedPort: nat, picked: Option<string>)
    requires TableOk(t) && EncodesRoutes(routes, t)
    requires RemovesPicked(routes, Dest(ip, port), routes', removedPort, picked)
    ensures forall p :: p in t ==> (p == removedPort <==> Serves(t[p], ip, port))
  {
    forall p | p in t
      ensures p == removedPort <==> Serves(t[p], ip, port)
    {
      RouteDecodes(t[p], p);
      RowRoute(routes, t, p);
      if picked.Some? {
        RouteAt(routes, t, picked.value);
        DestInjective(t[removedPort].ip, t[removedPort].port, ip, port);
      }
    }
  }

  lemma RemovedRoutes(routes: map<string, string>, t: Table, ip: string, port: nat,
                      routes': map<string, string>, removedPort: nat, picked: Option<string>)
    requires TableOk(t) && EncodesRoutes(routes, t)
    requires RemovesPicked(routes, Dest(ip, port), routes', removedPort, picked)
    requires forall p :: p in t ==> (p == removedPort <==> Serves(t[p], ip, port))
    ensures EncodesRoutes(routes', RemoveDest(t, ip, port))
  {
    var t' := RemoveDest(t, ip, port);
    forall k | k in routes
      ensures k in routes' <==> ProxyPortOf(routes[k]) in t'
    {
      RouteAt(routes, t, k);
      if picked.Some? {
        RouteAt(routes, t, picked.value);
      }
    }
    RestrictEncodesRoutes(routes, t, routes', t');
  }

  lemma RemovedService(services: map<string, Service>, t: Table, ip: string, port: nat, removedPort: nat)
    requires EncodesServices(services, t)
    requires forall p :: p in t ==> (p == removedPort <==> Serves(t[p], ip, port))
    ensures EncodesServices(services - {ServiceName(removedPort)}, RemoveDest(t, ip, port))
  {
    var t' := RemoveDest(t, ip, port);
    forall n | n in services
      ensures n == ServiceName(removedPort) <==> ServicePortOf(n) !in t'
    {
      var p := ServicePortOf(n);
      assert p in t && n == ServiceName(p);
      ServicePortOfName(removedPort);
    }
    RestrictEncodesServices(services, t, services - {ServiceName(removedPort)}, t');
  }
}

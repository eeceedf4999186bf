/**
  The route table that the ConfigMap and the proxy Services together encode: proxy port to route.
  The class `Stowaway` is proved to keep its two stores equal to the encoding of such a table.
 */
module Table {
  import opened Wrappers
  import opened Encoding
  import opened Sets

  const FIRST_PORT := 10000
  const END_PORT := 60000

  type Table = map<nat, Row>

  predicate Serves(row: Row, ip: string, port: nat) { row.ip == ip && row.port == port }

  predicate ServesPeer(row: Row, peer: string, ip: string, port: nat) { row.peer == peer && Serves(row, ip, port) }

  /** Same ConfigMap key, as suffixes have no dash. */
  predicate SameKey(row: Row, row': Row) { row.peer == row'.peer && row.suffix == row'.suffix }

  ghost predicate HasPeerDest(t: Table, peer: string, ip: string, port: nat) {
    exists p :: p in t && ServesPeer(t[p], peer, ip, port)
  }

  ghost predicate HasDest(t: Table, ip: string, port: nat) {
    exists p :: p in t && Serves(t[p], ip, port)
  }

  /** What every run keeps: ports in range, keys and destinations pairwise distinct, texts that decode. */
  ghost predicate TableOk(t: Table) {
    && (forall p :: p in t ==> FIRST_PORT <= p < END_PORT && CleanIp(t[p].ip) && '-' !in t[p].suffix)
    && (forall p, q :: p in t && q in t && p != q ==>
        !SameKey(t[p], t[q]) && !Serves(t[p], t[q].ip, t[q].port))
  }

  // ----- The two stores -----

  ghost predicate EncodesRoutes(routes: map<string, string>, t: Table) {
    && (forall p {:trigger RouteKey(t[p])} :: p in t ==>
        RouteKey(t[p]) in routes && routes[RouteKey(t[p])] == RouteValue(t[p], p))
    && (forall k {:trigger ProxyPortOf(routes[k])} :: k in routes ==>
        var p := ProxyPortOf(routes[k]); p in t && k == RouteKey(t[p]))
  }

  ghost predicate EncodesServices(services: map<string, Service>, t: Table) {
    && (forall p {:trigger ServiceName(p)} :: p in t ==>
        ServiceName(p) in services && services[ServiceName(p)] == ServiceOf(t[p]))
    && (forall n {:trigger ServicePortOf(n)} :: n in services ==>
        var p := ServicePortOf(n); p in t && n == ServiceName(p))
  }

  /** Routes and Services correspond one to one. */
  ghost predicate Agree(routes: map<string, string>, services: map<string, Service>, t: Table) {
    TableOk(t) && EncodesRoutes(routes, t) && EncodesServices(services, t)
  }

  lemma RoutesIncluded(routes: map<string, string>, routes': map<string, string>, t: Table)
    requires EncodesRoutes(routes, t) && EncodesRoutes(routes', t)
    ensures forall k :: k in routes ==> k in routes' && routes'[k] == routes[k]
  {
    forall k | k in routes
      ensures k in routes' && routes'[k] == routes[k]
    {
      var p := ProxyPortOf(routes[k]);
      assert p in t && k == RouteKey(t[p]);
    }
  }

  lemma ServicesIncluded(services: map<string, Service>, services': map<string, Service>, t: Table)
    requires EncodesServices(services, t) && EncodesServices(services', t)
    ensures forall n :: n in services ==> n in services' && services'[n] == services[n]
  {
    forall n | n in services
      ensures n in services' && services'[n] == services[n]
    {
      var p := ServicePortOf(n);
      assert p in t && n == ServiceName(p);
    }
  }

  /** The table determines both stores, so equal tables mean equal ConfigMaps and equal Services. */
  lemma EncodingUnique(routes: map<string, string>, services: map<string, Service>,
                       routes': map<string, string>, services': map<string, Service>, t: Table)
    requires EncodesRoutes(routes, t) && EncodesServices(services, t)
    requires EncodesRoutes(routes', t) && EncodesServices(services', t)
    ensures routes == routes' && services == services'
  {
    RoutesIncluded(routes, routes', t);
    RoutesIncluded(routes', routes, t);
    ServicesIncluded(services, services', t);
    ServicesIncluded(services', services, t);
  }

  /** Conversely the stores determine the table. */
  lemma TableUnique(routes: map<string, string>, services: map<string, Service>, t: Table, t': Table)
    requires Agree(routes, services, t) && Agree(routes, services, t')
    ensures t == t'
  {
    TableIncluded(routes, services, t, t');
    TableIncluded(routes, services, t', t);
  }

  lemma RouteInjective(row: Row, p: nat, row': Row, p': nat)
    requires CleanIp(row.ip) && CleanIp(row'.ip) && '-' !in row.suffix && '-' !in row'.suffix
    requires RouteKey(row) == RouteKey(row') && RouteValue(row, p) == RouteValue(row', p')
    ensures row == row' && p == p'
  {
    RouteDecodes(row, p);
    RouteDecodes(row', p');
    DestInjective(row.ip, row.port, row'.ip, row'.port);
    PeerDecodes(row);
    PeerDecodes(row');
    assert row.suffix == RouteKey(row)[|row.peer| + 1..];
    assert row'.suffix == RouteKey(row')[|row'.peer| + 1..];
  }

  lemma TableIncluded(routes: map<string, string>, services: map<string, Service>, t: Table, t': Table)
    requires Agree(routes, services, t) && Agree(routes, services, t')
    ensures forall p :: p in t ==> p in t' && t'[p] == t[p]
  {
    forall p | p in t
      ensures p in t' && t'[p] == t[p]
    {
      var k := RouteKey(t[p]);
      assert k in routes && routes[k] == RouteValue(t[p], p);
      var q := ProxyPortOf(routes[k]);
      assert q in t' && k == RouteKey(t'[q]) && routes[k] == RouteValue(t'[q], q);
      RouteInjective(t[p], p, t'[q], q);
    }
  }

  // ----- The allocator -----

  /** The least port from `p` on that is not taken. */
  function FreeFrom(taken: set<nat>, p: nat): (r: Option<nat>)
    requires p <= END_PORT
    ensures r.Some? ==> p <= r.value < END_PORT && r.value !in taken
    ensures forall q :: p <= q < (if r.Some? then r.value else END_PORT) ==> q in taken
    decreases END_PORT - p
  {
    if p == END_PORT then None
    else if p !in taken then Some(p)
    else FreeFrom(taken, p + 1)
  }

  function FreePort(taken: set<nat>): Option<nat> { FreeFrom(taken, FIRST_PORT) }

  function Interval(lo: nat, hi: nat): (s: set<nat>)
    requires lo <= hi
    ensures |s| == hi - lo
    ensures forall q :: q in s <==> lo <= q < hi
    decreases hi - lo
  {
    if lo == hi then {} else Interval(lo, hi - 1) + {hi - 1}
  }

  /** First fit: the port lies at most as many places above the first as there are ports taken. */
  lemma FirstFitBound(taken: set<nat>)
    ensures FreePort(taken).Some? ==> FreePort(taken).value <= FIRST_PORT + |taken|
    ensures |taken| < END_PORT - FIRST_PORT ==> FreePort(taken).Some?
  {
    var hi := if FreePort(taken).Some? then FreePort(taken).value else END_PORT;
    SubsetCardinality(Interval(FIRST_PORT, hi), taken);
  }

  /** Allocation fails exactly when every one of the 50000 ports is taken. */
  lemma ExhaustedIff(t: Table)
    requires TableOk(t)
    ensures FreePort(t.Keys).None? <==> |t| == 50000
    ensures |t| <= 50000
  {
    assert |t| == |t.Keys|;
    FirstFitBound(t.Keys);
    WithinInterval(t.Keys, FIRST_PORT, END_PORT);
  }

  lemma WithinInterval(taken: set<nat>, lo: nat, hi: nat)
    requires lo <= hi && forall q :: q in taken ==> lo <= q < hi
    ensures |taken| <= hi - lo
    ensures |taken| == hi - lo ==> forall q :: lo <= q < hi ==> q in taken
  {
    SubsetCardinality(taken, Interval(lo, hi));
  }

  // ----- The operations on tables -----

  function RemoveDest(t: Table, ip: string, port: nat): Table {
    map p | p in t && !Serves(t[p], ip, port) :: t[p]
  }

  function AddRow(t: Table, row: Row): Table {
    match FreePort(t.Keys)
    case Some(p) => t[p := row]
    case None => t
  }

  /** A key that `random.choices` drew anew: ten letters, not in use. */
  ghost predicate Fresh(t: Table, row: Row) {
    && '-' !in row.suffix
    && forall p :: p in t ==> !SameKey(t[p], row)
  }

  lemma AddKeepsOk(t: Table, row: Row)
    requires TableOk(t) && CleanIp(row.ip) && Fresh(t, row) && !HasDest(t, row.ip, row.port)
    ensures TableOk(AddRow(t, row))
  {
  }

  lemma RemoveKeepsOk(t: Table, ip: string, port: nat)
    requires TableOk(t)
    ensures TableOk(RemoveDest(t, ip, port))
  {
  }

  lemma AddAgrees(routes: map<string, string>, services: map<string, Service>, t: Table, row: Row, p: nat)
    requires Agree(routes, services, t)
    requires CleanIp(row.ip) && Fresh(t, row) && !HasDest(t, row.ip, row.port)
    requires FreePort(t.Keys) == Some(p)
    ensures Agree(routes[RouteKey(row) := RouteValue(row, p)], services[ServiceName(p) := ServiceOf(row)], AddRow(t, row))
  {
    AddKeepsOk(t, row);
    AddEncodesRoutes(routes, t, row, p);
    AddEncodesServices(services, t, row, p);
  }

  lemma KeysDiffer(row: Row, row': Row)
    requires '-' !in row.suffix && '-' !in row'.suffix && !SameKey(row, row')
    ensures RouteKey(row) != RouteKey(row')
  {
    PeerDecodes(row);
    PeerDecodes(row');
    assert row.suffix == RouteKey(row)[|row.peer| + 1..];
    assert row'.suffix == RouteKey(row')[|row'.peer| + 1..];
  }

  lemma AddEncodesRoutes(routes: map<string, string>, t: Table, row: Row, p: nat)
    requires TableOk(t) && EncodesRoutes(routes, t)
    requires CleanIp(row.ip) && Fresh(t, row) && p !in t
    ensures EncodesRoutes(routes[RouteKey(row) := RouteValue(row, p)], t[p := row])
  {
    RouteDecodes(row, p);
    forall q | q in t
      ensures RouteKey(t[q]) != RouteKey(row)
    {
      KeysDiffer(t[q], row);
    }
    AddedRoute(routes, t, RouteKey(row), RouteValue(row, p), row, p);
  }

  lemma AddedRoute(routes: map<string, string>, t: Table, key: string, value: string, row: Row, p: nat)
    requires EncodesRoutes(routes, t) && p !in t
    requires key == RouteKey(row) && value == RouteValue(row, p) && ProxyPortOf(value) == p
    requires forall q {:trigger RouteKey(t[q])} :: q in t ==> RouteKey(t[q]) != key
    ensures EncodesRoutes(routes[key := value], t[p := row])
  {
    var routes', t' := routes[key := value], t[p := row];
    forall q | q in t'
      ensures RouteKey(t'[q]) in routes' && routes'[RouteKey(t'[q])] == RouteValue(t'[q], q)
    {
      if q != p {
        assert t'[q] == t[q] && RouteKey(t[q]) in routes;
      }
    }
    forall k | k in routes'
      ensures ProxyPortOf(routes'[k]) in t' && k == RouteKey(t'[ProxyPortOf(routes'[k])])
    {
      if k != key {
        assert routes'[k] == routes[k] && ProxyPortOf(routes[k]) in t;
      }
    }
  }

  lemma AddEncodesServices(services: map<string, Service>, t: Table, row: Row, p: nat)
    requires EncodesServices(services, t) && p !in t
    ensures EncodesServices(services[ServiceName(p) := ServiceOf(row)], t[p := row])
  {
    ServicePortOfName(p);
    var name := ServiceName(p);
    forall q | q in t
      ensures ServiceName(q) != name
    {
      ServicePortOfName(q);
    }
  }

  lemma RestrictEncodesRoutes(routes: map<string, string>, t: Table, routes': map<string, string>, t': Table)
    requires TableOk(t) && EncodesRoutes(routes, t)
    requires t'.Keys <= t.Keys && forall p :: p in t' ==> t'[p] == t[p]
    requires forall k :: k in routes' <==> k in routes && ProxyPortOf(routes[k]) in t'
    requires forall k :: k in routes' ==> routes'[k] == routes[k]
    ensures EncodesRoutes(routes', t')
  {
    forall p | p in t'
      ensures RouteKey(t'[p]) in routes' && routes'[RouteKey(t'[p])] == RouteValue(t'[p], p)
    {
      assert p in t && t'[p] == t[p];
      RouteDecodes(t[p], p);
    }
    forall k | k in routes'
      ensures ProxyPortOf(routes'[k]) in t' && k == RouteKey(t'[ProxyPortOf(routes'[k])])
    {
      assert routes'[k] == routes[k];
      var q := ProxyPortOf(routes[k]);
      assert q in t && k == RouteKey(t[q]);
    }
  }

  lemma RestrictEncodesServices(services: map<string, Service>, t: Table, services': map<string, Service>, t': Table)
    requires EncodesServices(services, t)
    requires t'.Keys <= t.Keys && forall p :: p in t' ==> t'[p] == t[p]
    requires forall n :: n in services' <==> n in services && ServicePortOf(n) in t'
    requires forall n :: n in services' ==> services'[n] == services[n]
    ensures EncodesServices(services', t')
  {
    forall p | p in t'
      ensures ServiceName(p) in services' && services'[ServiceName(p)] == ServiceOf(t'[p])
    {
      assert p in t && t'[p] == t[p];
      ServicePortOfName(p);
    }
    forall n | n in services'
      ensures ServicePortOf(n) in t' && n == ServiceName(ServicePortOf(n))
    {
      var q := ServicePortOf(n);
      assert q in t && n == ServiceName(q);
    }
  }
}

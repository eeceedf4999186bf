/** The life of a GefyraBridge: its state machine and the handlers that drive it. */
module BridgeHandlers {
  import opened Wrappers
  import opened Encoding
  import opened Table
  import opened Objects
  import opened Runs
  import opened Sets
  import opened CarrierConfig
  import opened BridgeRoutes
  import opened BridgeController
  import opened Intactness
  import opened StowawayProvider
  import opened BridgeLifecycle

  datatype BridgeState = Requested | Installing | Installed | Creating | Active | Restoring | Error | Terminating

  /** What a handler can count on about an address: clean, of one client, and unused suffixes to draw from. */
  ghost predicate Usable(t: Table, b: Bridge, ip: string, suffixes: seq<string>) {
    && CleanIp(ip) && AddressOwned(t, b.client, ip)
    && |suffixes| == |b.portMappings| && FreshSuffixes(t, b.client, suffixes)
  }

  /** For a clean address of one client the handlers find such suffixes in every state of the routes. */
  lemma UsableIff(t: Table, b: Bridge, ip: string)
    ensures CleanIp(ip) && AddressOwned(t, b.client, ip) <==> exists suffixes :: Usable(t, b, ip, suffixes)
  {
    var suffixes := SuffixesExist(t, b.client, |b.portMappings|);
    if CleanIp(ip) && AddressOwned(t, b.client, ip) {
      assert Usable(t, b, ip, suffixes);
    }
  }

  lemma NothingRun(t: Table, ops: seq<Op>)
    ensures PartlyRun(t, ops, t)
  {
    assert t == Run(t, ops[..0]);
  }

  lemma UsableAfterTeardown(t: Table, b: Bridge, from: string, to: string, suffixes: seq<string>)
    requires Usable(t, b, to, suffixes)
    ensures Usable(Run(t, RemoveOps(b, from)), b, to, suffixes)
    ensures |Run(t, RemoveOps(b, from))| <= |t|
  {
    TeardownExact(t, b, from);
    SubsetCardinality(Run(t, RemoveOps(b, from)).Keys, t.Keys);
  }

  lemma SetUpOutcome(t: Table, config0: seq<Proxy>, base: seq<Proxy>, bridges: seq<Bridge>, me: nat, config: seq<Proxy>)
    requires TableOk(t) && Unbridged(base) && DistinctBridges(bridges) && me < |bridges|
    requires Completed(t, config0, base, bridges, me, bridges[me].destinationIP, config)
    requires OwnEndpoints(bridges[me]) && OneLocalPort(bridges[me])
    ensures Intact(t, config, bridges[me]) && OneRouteEach(t, bridges[me], bridges[me].destinationIP)
    ensures EndpointsSet(t, bridges[me], bridges[me].destinationIP, |bridges[me].portMappings|)
  {
    CompletedIsIntact(t, config0, base, bridges, me, config);
    SetUpHasOneRouteEach(t, bridges[me], bridges[me].destinationIP);
  }

  lemma SoleCompleted(t: Table, config0: seq<Proxy>, base: seq<Proxy>, b: Bridge, bridges: seq<Bridge>, config: seq<Proxy>)
    requires TableOk(t) && Unbridged(base) && SameButEndpoints([b], bridges, 0) && OwnEndpoints(bridges[0])
    requires NotEntered(config0, b.name)
    requires Completed(t, config0, base, bridges, 0, bridges[0].destinationIP, config)
    ensures Intact(t, config, bridges[0]) <==> OneLocalPort(b)
  {
    CompletedIntactIff(t, config0, base, bridges, 0, config);
  }

  lemma StillOwned(t: Table, b: Bridge, ip: string, suffixes: seq<string>, t': Table)
    requires Usable(t, b, ip, suffixes) && PartlyRun(t, AddOps(b, ip, suffixes), t')
    ensures AddressOwned(t', b.client, ip)
  {
    var k :| 0 <= k <= |suffixes| && t' == Run(t, AddOps(b, ip, suffixes)[..k]);
    AddsFrame(t, AddOps(b, ip, suffixes)[..k]);
    forall p | p in t' && p !in t
      ensures t'[p].peer == b.client
    {
      AddedBySetup(b, ip, suffixes, k, t'[p]);
    }
  }

  lemma NonePresentNothingDone(t: Table, b: Bridge, ip: string)
    requires NonePresent(t, b, ip)
    ensures forall config :: !SomeConfigured(t, config, b, ip, |b.portMappings|)
    ensures Run(t, RemoveOps(b, ip)) == t
  {
    TeardownExact(t, b, ip);
    forall i | 0 <= i < |b.portMappings|
      ensures MapsLocal(b, LocalPort(b.portMappings[i]))
    {
    }
  }

  lemma TornDownOutcome(t: Table, config: seq<Proxy>, base: seq<Proxy>, bridges: seq<Bridge>, me: nat, answers: bool,
                        t': Table, config': seq<Proxy>)
    requires Unbridged(base) && DistinctBridges(bridges) && me < |bridges|
    requires t' == Run(t, RemoveOps(bridges[me], bridges[me].destinationIP))
    requires ConfigTornDown(t, config, base, bridges, me, bridges[me].destinationIP, answers, |bridges[me].portMappings|, config')
    ensures NonePresent(t', bridges[me], bridges[me].destinationIP)
    ensures NonePresent(t, bridges[me], bridges[me].destinationIP) ==> t' == t && config' == config
    ensures
      if answers && SomeConfigured(t, config, bridges[me], bridges[me].destinationIP, |bridges[me].portMappings|)
      then NotEntered(config', bridges[me].name) && IsDeclared(base, bridges[..me] + bridges[me + 1..], None, config')
      else config' == config
  {
    var b := bridges[me];
    TeardownExact(t, b, b.destinationIP);
    if NonePresent(t, b, b.destinationIP) {
      NonePresentNothingDone(t, b, b.destinationIP);
    }
    if answers && SomeConfigured(t, config, b, b.destinationIP, |b.portMappings|) {
      TornDownConfig(base, bridges, me, config');
    }
  }

  lemma DeletionOutlook(t: Table, config0: seq<Proxy>, base: seq<Proxy>, bridges: seq<Bridge>, me: nat, config: seq<Proxy>)
    requires TableOk(t) && Unbridged(base) && DistinctBridges(bridges) && me < |bridges|
    requires Completed(t, config0, base, bridges, me, bridges[me].destinationIP, config) && OwnEndpoints(bridges[me])
    ensures Parses(bridges[me])
    ensures bridges[me].portMappings != [] && (OneLocalPort(bridges[me]) || FreesItself(bridges[me])) ==>
      SomeConfigured(t, config, bridges[me], bridges[me].destinationIP, |bridges[me].portMappings|)
    ensures |bridges| == 1 && NotEntered(config0, bridges[me].name) && bridges[me].portMappings != [] ==>
      && !NotEntered(config, bridges[me].name)
      && (SomeConfigured(t, config, bridges[me], bridges[me].destinationIP, |bridges[me].portMappings|) <==> FreesItself(bridges[me]))
  {
    if bridges[me].portMappings != [] {
      CompletedConfigured(t, config0, base, bridges, me, config);
      if |bridges| == 1 && NotEntered(config0, bridges[me].name) {
        CompletedConfiguredIff(t, config0, base, bridges, config);
      }
    }
  }

  /** A teardown leaves room, so that what suffices for a setup suffices after it. */
  lemma MoveGoesThrough(t: Table, b: Bridge, from: string, suffixes: seq<string>, ports: seq<nat>, config: seq<Proxy>, listed: bool)
    requires Usable(t, b, b.destinationIP, suffixes)
    ensures Deployable(b, ports) && |t| + |suffixes| <= END_PORT - FIRST_PORT ==>
      Parses(b) && SetsUp(Run(t, RemoveOps(b, from)), config, b, b.destinationIP, suffixes, ports, true, listed, true)
  {
    UsableAfterTeardown(t, b, from, b.destinationIP, suffixes);
    if Deployable(b, ports) && |t| + |suffixes| <= END_PORT - FIRST_PORT {
      DeployableSame(b, b, ports);
      DeployableSetsUp(Run(t, RemoveOps(b, from)), config, b, b.destinationIP, suffixes, ports, listed);
    }
  }

  /** One table has one encoding. */
  lemma SameStores(t: Table, routes: map<string, string>, services: map<string, Service>,
                   t': Table, routes': map<string, string>, services': map<string, Service>)
    requires EncodesRoutes(routes, t) && EncodesServices(services, t)
    requires EncodesRoutes(routes', t') && EncodesServices(services', t')
    ensures t' == t ==> routes' == routes && services' == services
  {
    if t' == t {
      EncodingUnique(routes, services, routes', services', t);
    }
  }

  lemma SameMappingsFree(b: Bridge, b': Bridge)
    requires b'.portMappings == b.portMappings
    ensures FreesItself(b') <==> FreesItself(b)
  {
    assert forall i :: 0 <= i < |b.portMappings| ==> (Wins(b', b'.portMappings[i]) <==> Wins(b, b.portMappings[i]));
  }

  class GefyraBridge {
    const cluster: Cluster
    const me: nat
    /** The state of the machine in a handler's hands. */
    var state: BridgeState
    /** `state` of the custom resource. */
    var persisted: BridgeState
    /** The keys of `stateTransitions`. */
    var completed: set<BridgeState>

    ghost predicate Valid()
      reads this, cluster, cluster.stowaway
    {
      cluster.Valid() && me < |cluster.bridges| && persisted != Terminating && OwnEndpoints(Data())
    }

    constructor (cluster: Cluster, me: nat)
      requires cluster.Valid() && me < |cluster.bridges| && OwnEndpoints(cluster.bridges[me])
      ensures Valid() && this.cluster == cluster && this.me == me
      ensures state == persisted == Requested && completed == {}
    {
      this.cluster, this.me := cluster, me;
      this.state, this.persisted, this.completed := Requested, Requested, {};
    }

    function Data(): Bridge
      reads cluster
      requires me < |cluster.bridges|
    {
      cluster.bridges[me]
    }

    /** The `state` setter: the terminating state is not written to the object. */
    method SetState(s: BridgeState)
      modifies this
      ensures state == s
      ensures if s == Terminating then persisted == old(persisted) && completed == old(completed)
              else persisted == s && completed == old(completed) + {s}
    {
      state := s;
      if s != Terminating {
        persisted := s;
        completed := completed + {s};
      }
    }

    /** `install`. A provider that is not ready raises, which keeps the transition from happening. */
    method Install(installs: bool, ready: bool) returns (r: Result<()>)
      requires state in {Requested, Error, Installing}
      modifies this
      ensures r.Failure? <==> !ready && (old(state) == Installing || (old(state) == Requested && installs))
      ensures r.Failure? ==> state == old(state) && persisted == old(persisted) && completed == old(completed)
      ensures r.Success? ==> persisted == state && completed == old(completed) + {Installing, state}
      ensures r.Success? ==> state == match old(state)
        case Requested => if installs then Installed else Error
        case Installing => Installed
        case _ => Installing
    {
      if state == Requested && !installs {
        SetState(Installing);
        SetState(Error);
      } else if state == Error {
        SetState(Installing);
      } else {
        if !ready {
          return Failure("Waiting for GefyraBridge provider");
        }
        SetState(Installing);
        SetState(Installed);
      }
      return Success(());
    }

    /**
      `activate`: its action runs the setup and sends `establish` or, whatever was raised, `impair`; both run once
      the machine is in CREATING, before the call returns.
     */
    method Activate(suffixes: seq<string>)
      requires Valid() && state in {Installed, Error, Creating}
      requires Usable(cluster.stowaway.table, Data(), Data().destinationIP, suffixes)
      modifies this, cluster`bridges, cluster`config, cluster.stowaway`routes, cluster.stowaway`services, cluster.stowaway`table
      ensures Valid() && SameButEndpoints(old(cluster.bridges), cluster.bridges, me)
      ensures state == persisted == (if old(CanSetUp(suffixes)) then Active else Error)
      ensures completed == old(completed) + {Creating, state}
      ensures SetUpStep(cluster.base, old(cluster.stowaway.table), old(cluster.bridges), old(cluster.config), me,
                        old(Data()).destinationIP, suffixes, cluster.stowaway.table, cluster.bridges, cluster.config)
      ensures
        (state == Active
         || RoutesSetUp(old(cluster.stowaway.table), old(Data()), old(Data()).destinationIP, cluster.stowaway.podPresent)) ==>
        cluster.stowaway.table == Run(old(cluster.stowaway.table), AddOps(old(Data()), old(Data()).destinationIP, suffixes))
      ensures state == Error ==> cluster.config == old(cluster.config)
      ensures state == Active ==>
        Completed(cluster.stowaway.table, old(cluster.config), cluster.base, cluster.bridges, me, Data().destinationIP, cluster.config)
      ensures state == Active && OneLocalPort(old(Data())) ==> AsSetUp()
    {
      ghost var config0 := cluster.config;
      var set_ := cluster.HandleProxyrouteSetup(me, cluster.bridges[me].destinationIP, suffixes);
      if set_.Success? && OneLocalPort(cluster.bridges[me]) {
        SetUpOutcome(cluster.stowaway.table, config0, cluster.base, cluster.bridges, me, cluster.config);
      }
      Conclude(set_.Success?);
    }

    /** The setup of the bridge will go through. */
    ghost predicate CanSetUp(suffixes: seq<string>)
      reads cluster, cluster.stowaway
      requires me < |cluster.bridges| && |suffixes| == |Data().portMappings|
    {
      cluster.SetUpGoesThrough(me, Data().destinationIP, suffixes)
    }

    /** The transition to CREATING and the one that the action has sent. */
    method Conclude(established: bool)
      modifies this
      ensures state == persisted == (if established then Active else Error)
      ensures completed == old(completed) + {Creating, state}
    {
      SetState(Creating);
      if established {
        SetState(Active);
      } else {
        SetState(Error);
      }
    }

    /**
      The same for the only bridge of a mount that is not configured yet: once active it is intact if and only if its
      mappings to one target port share the local port.
     */
    method ActivateSole(suffixes: seq<string>)
      requires Valid() && state == Installed && |cluster.bridges| == 1 && NotEntered(cluster.config, Data().name)
      requires Usable(cluster.stowaway.table, Data(), Data().destinationIP, suffixes)
      modifies this, cluster`bridges, cluster`config, cluster.stowaway`routes, cluster.stowaway`services, cluster.stowaway`table
      ensures Valid() && state == (if old(CanSetUp(suffixes)) then Active else Error)
      ensures state == Active ==>
        (Intact(cluster.stowaway.table, cluster.config, Data()) <==> OneLocalPort(old(Data())))
    {
      ghost var config0, b := cluster.config, Data();
      Activate(suffixes);
      if state == Active {
        SoleCompleted(cluster.stowaway.table, config0, cluster.base, b, cluster.bridges, cluster.config);
      }
    }

    /** What a successful setup has stored: under each target text the URL of the last mapping with it. */
    ghost predicate EndpointsStored()
      reads this, cluster, cluster.stowaway
      requires me < |cluster.bridges|
    {
      LastEndpoints(cluster.stowaway.table, Data(), Data().destinationIP, |Data().portMappings|)
    }

    /** What it establishes if mappings to one target port share the local port. */
    ghost predicate AsSetUp()
      reads this, cluster, cluster.stowaway
      requires me < |cluster.bridges|
    {
      && Intact(cluster.stowaway.table, cluster.config, Data())
      && EndpointsSet(cluster.stowaway.table, Data(), Data().destinationIP, |Data().portMappings|)
      && OneRouteEach(cluster.stowaway.table, Data(), Data().destinationIP)
    }

    /** `restore`, whose action sends `set_installed`. */
    method Restore()
      requires state in {Installed, Error, Restoring, Active}
      modifies this
      ensures state == persisted == Installed && completed == old(completed) + {Restoring, Installed}
    {
      SetState(Restoring);
      SetState(Installed);
    }

    /** `bridge_create`, also run when the operator resumes. */
    method BridgeCreate(installs: bool, ready: bool, suffixes: seq<string>) returns (r: Result<()>)
      requires Valid()
      requires Usable(cluster.stowaway.table, Data(), Data().destinationIP, suffixes)
      modifies this, cluster`bridges, cluster`config, cluster.stowaway`routes, cluster.stowaway`services, cluster.stowaway`table
      ensures Valid()
      ensures r.Failure? <==> !ready && (old(persisted) == Installing || (old(persisted) == Requested && installs))
      ensures persisted ==
        if old(persisted) == Requested && !installs then Error
        else if r.Success? && old(persisted) in {Requested, Installing, Installed}
        then if old(CanSetUp(suffixes)) then Active else Error
        else old(persisted)
      ensures
        if r.Success? && (old(persisted) in {Installing, Installed} || (old(persisted) == Requested && installs))
        then (Active in completed <==> Active in old(completed) || persisted == Active)
        else (Active in completed <==> Active in old(completed)) && unchanged(cluster) && unchanged(cluster.stowaway)
      ensures SetUpStep(cluster.base, old(cluster.stowaway.table), old(cluster.bridges), old(cluster.config), me,
                        old(Data()).destinationIP, suffixes, cluster.stowaway.table, cluster.bridges, cluster.config)
      ensures persisted == Error ==> cluster.config == old(cluster.config)
      ensures persisted == Active && old(persisted) != Active ==>
        cluster.stowaway.table == Run(old(cluster.stowaway.table), AddOps(old(Data()), old(Data()).destinationIP, suffixes))
      ensures persisted == Active && old(persisted) != Active ==> EndpointsStored() && (OneLocalPort(old(Data())) ==> AsSetUp())
      ensures
        (old(persisted) in {Requested, Installing, Installed} && installs && ready && cluster.stowaway.podPresent
         && cluster.Answers() && Deployable(old(Data()), PortsOf(cluster.base))
         && |old(cluster.stowaway.table)| + |suffixes| <= END_PORT - FIRST_PORT) ==> persisted == Active
    {
      state := persisted;
      NothingRun(cluster.stowaway.table, AddOps(Data(), Data().destinationIP, suffixes));
      ReadyToSetUp(suffixes);
      if state == Requested {
        r := Install(installs, ready);
        if r.Failure? {
          return;
        }
      }
      r := InstallAndActivate(installs, ready, suffixes);
    }

    /** With the Stowaway Pod there, Pods that answer and room for its mappings, the setup of a deployable bridge goes through. */
    lemma ReadyToSetUp(suffixes: seq<string>)
      requires me < |cluster.bridges| && |suffixes| == |Data().portMappings|
      ensures
        (cluster.stowaway.podPresent && cluster.Answers() && Deployable(Data(), PortsOf(cluster.base))
         && |cluster.stowaway.table| + |suffixes| <= END_PORT - FIRST_PORT) ==> CanSetUp(suffixes)
    {
      if Deployable(Data(), PortsOf(cluster.base)) && |cluster.stowaway.table| + |suffixes| <= END_PORT - FIRST_PORT {
        DeployableSetsUp(cluster.stowaway.table, cluster.config, Data(), Data().destinationIP, suffixes, PortsOf(cluster.base),
                         cluster.podsListed);
      }
    }

    /** The last steps that `bridge_create` and `bridge_reconcile` have in common. */
    method InstallAndActivate(installs: bool, ready: bool, suffixes: seq<string>) returns (r: Result<()>)
      requires Valid() && persisted == state
      requires Usable(cluster.stowaway.table, Data(), Data().destinationIP, suffixes)
      modifies this, cluster`bridges, cluster`config, cluster.stowaway`routes, cluster.stowaway`services, cluster.stowaway`table
      ensures Valid() && persisted == state
      ensures r.Failure? <==> !ready && old(state) == Installing
      ensures state ==
        if r.Success? && old(state) in {Installing, Installed}
        then if old(CanSetUp(suffixes)) then Active else Error
        else old(state)
      ensures
        if r.Success? && old(state) in {Installing, Installed}
        then (Active in completed <==> Active in old(completed) || state == Active)
        else completed == old(completed) && unchanged(cluster) && unchanged(cluster.stowaway)
      ensures SetUpStep(cluster.base, old(cluster.stowaway.table), old(cluster.bridges), old(cluster.config), me,
                        old(Data()).destinationIP, suffixes, cluster.stowaway.table, cluster.bridges, cluster.config)
      ensures state == Error ==> cluster.config == old(cluster.config)
      ensures state == Active && old(state) != Active ==>
        cluster.stowaway.table == Run(old(cluster.stowaway.table), AddOps(old(Data()), old(Data()).destinationIP, suffixes))
      ensures state == Active && old(state) != Active ==> EndpointsStored() && (OneLocalPort(old(Data())) ==> AsSetUp())
    {
      NothingRun(cluster.stowaway.table, AddOps(Data(), Data().destinationIP, suffixes));
      if state == Installing {
        r := Install(installs, ready);
        if r.Failure? {
          return;
        }
      }
      if state == Installed {
        Activate(suffixes);
      }
      return Success(());
    }

    /** `update_bridge_destination`; the object already carries the new address. */
    method UpdateBridgeDestination(from: Option<string>, suffixes: seq<string>)
        returns (r: Result<()>, ghost between: seq<Proxy>)
      requires Valid()
      requires Usable(cluster.stowaway.table, Data(), Data().destinationIP, suffixes)
      requires from.Some? ==> AddressOwned(cluster.stowaway.table, Data().client, from.value)
      modifies this, cluster`bridges, cluster`config, cluster.stowaway`routes, cluster.stowaway`services, cluster.stowaway`table
      ensures Valid() && SameButEndpoints(old(cluster.bridges), cluster.bridges, me)
      ensures old(persisted) != Active || from.None? || from == Some("") ==>
        persisted == old(persisted) && completed == old(completed) && unchanged(cluster) && unchanged(cluster.stowaway)
      ensures r.Failure? <==> old(persisted) == Active && from.Some? && from.value != "" && !Parses(old(Data()))
      ensures r.Failure? ==>
        persisted == old(persisted) && cluster.bridges == old(cluster.bridges)
        && TeardownStep(cluster.base, old(cluster.stowaway.table), old(cluster.bridges), old(cluster.config), me, from.value,
                        cluster.stowaway.table, cluster.config)
      ensures old(persisted) == Active && from.Some? && from.value != "" && r.Success? ==>
        && ConfigTornDown(old(cluster.stowaway.table), old(cluster.config), cluster.base, old(cluster.bridges), me, from.value,
                          cluster.Answers(), |suffixes|, between)
        && SetUpFrom(Run(old(cluster.stowaway.table), RemoveOps(old(Data()), from.value)), between, old(cluster.bridges), suffixes)
        && Moved(old(cluster.stowaway.table), old(Data()), from.value, old(Data()).destinationIP, cluster.stowaway.table)
        && (persisted == Active ==> EndpointsStored() && (OneLocalPort(old(Data())) ==> AsSetUp()))
      ensures
        (old(persisted) == Active && from.Some? && from.value != "" && cluster.stowaway.podPresent
         && cluster.Answers() && Deployable(old(Data()), PortsOf(cluster.base))
         && |old(cluster.stowaway.table)| + |suffixes| <= END_PORT - FIRST_PORT) ==> persisted == Active
    {
      state := persisted;
      between := cluster.config;
      if state == Active && from.Some? && from.value != "" {
        ghost var t, b := cluster.stowaway.table, Data();
        r, between := Move(from.value, suffixes);
        MoveGoesThrough(t, b, from.value, suffixes, PortsOf(cluster.base), between, cluster.podsListed);
        return;
      }
      return Success(()), between;
    }

    /** The teardown for the old address and the setup for the new one. */
    method Move(from: string, suffixes: seq<string>) returns (r: Result<()>, ghost between: seq<Proxy>)
      requires Valid() && state == persisted == Active
      requires Usable(cluster.stowaway.table, Data(), Data().destinationIP, suffixes)
      requires AddressOwned(cluster.stowaway.table, Data().client, from)
      modifies this, cluster`bridges, cluster`config, cluster.stowaway`routes, cluster.stowaway`services, cluster.stowaway`table
      ensures Valid() && SameButEndpoints(old(cluster.bridges), cluster.bridges, me)
      ensures r.Failure? <==> !Parses(old(Data()))
      ensures r.Failure? ==>
        persisted == old(persisted) && cluster.bridges == old(cluster.bridges)
        && TeardownStep(cluster.base, old(cluster.stowaway.table), old(cluster.bridges), old(cluster.config), me, from,
                        cluster.stowaway.table, cluster.config)
      ensures r.Success? ==>
        && ConfigTornDown(old(cluster.stowaway.table), old(cluster.config), cluster.base, old(cluster.bridges), me, from,
                          cluster.Answers(), |suffixes|, between)
        && SetUpFrom(Run(old(cluster.stowaway.table), RemoveOps(old(Data()), from)), between, old(cluster.bridges), suffixes)
        && Moved(old(cluster.stowaway.table), old(Data()), from, old(Data()).destinationIP, cluster.stowaway.table)
        && (persisted == Active ==> EndpointsStored() && (OneLocalPort(old(Data())) ==> AsSetUp()))
    {
      ghost var t, b := cluster.stowaway.table, Data();
      UsableAfterTeardown(t, b, from, b.destinationIP, suffixes);
      r := cluster.HandleProxyrouteTeardown(me, from);
      between := cluster.config;
      if r.Failure? {
        return;
      }
      SetUpAgain(suffixes);
      DestinationChange(t, b, from, b.destinationIP, suffixes, cluster.stowaway.table);
    }

    /** The last steps of `update_bridge_destination`. */
    method SetUpAgain(suffixes: seq<string>)
      requires Valid() && state == persisted == Active
      requires Usable(cluster.stowaway.table, Data(), Data().destinationIP, suffixes)
      modifies this, cluster`bridges, cluster`config, cluster.stowaway`routes, cluster.stowaway`services, cluster.stowaway`table
      ensures Valid()
      ensures SetUpStep(cluster.base, old(cluster.stowaway.table), old(cluster.bridges), old(cluster.config), me,
                        old(Data()).destinationIP, suffixes, cluster.stowaway.table, cluster.bridges, cluster.config)
      ensures persisted == Active ==> EndpointsStored() && (OneLocalPort(old(Data())) ==> AsSetUp())
      ensures persisted == if old(CanSetUp(suffixes)) then Active else Error
    {
      Restore();
      if state == Installed {
        Activate(suffixes);
      }
    }

    /** A setup from this table and configuration has ended, in ACTIVE exactly if it could go through. */
    ghost predicate SetUpFrom(t: Table, config: seq<Proxy>, bridges: seq<Bridge>, suffixes: seq<string>)
      reads this, cluster, cluster.stowaway
      requires me < |bridges| && |suffixes| == |bridges[me].portMappings|
    {
      && SetUpStep(cluster.base, t, bridges, config, me, bridges[me].destinationIP, suffixes,
                   cluster.stowaway.table, cluster.bridges, cluster.config)
      && persisted ==
         if SetsUp(t, config, bridges[me], bridges[me].destinationIP, suffixes, PortsOf(cluster.base),
                   cluster.stowaway.podPresent, cluster.podsListed, cluster.Answers()) then Active else Error
    }

    /** `bridge_reconcile`, run by a timer. */
    method BridgeReconcile(installs: bool, ready: bool, suffixes: seq<string>)
      requires Valid()
      requires Usable(cluster.stowaway.table, Data(), Data().destinationIP, suffixes)
      modifies this, cluster`bridges, cluster`config, cluster.stowaway`routes, cluster.stowaway`services, cluster.stowaway`table
      ensures Valid()
      ensures persisted == if old(Repairs(ready)) then if old(CanSetUp(suffixes)) then Active else Error else old(persisted)
      ensures !old(Repairs(ready)) ==> completed == old(completed) && unchanged(cluster) && unchanged(cluster.stowaway)
      ensures Active in completed <==> Active in old(completed)
      ensures SetUpStep(cluster.base, old(cluster.stowaway.table), old(cluster.bridges), old(cluster.config), me,
                        old(Data()).destinationIP, suffixes, cluster.stowaway.table, cluster.bridges, cluster.config)
      ensures persisted == Error ==> cluster.config == old(cluster.config)
      ensures old(Repairs(ready)) && persisted == Active ==>
        cluster.stowaway.table == Run(old(cluster.stowaway.table), AddOps(old(Data()), old(Data()).destinationIP, suffixes))
      ensures old(Repairs(ready)) && persisted == Active ==> EndpointsStored() && (OneLocalPort(old(Data())) ==> AsSetUp())
      ensures
        (Active in old(completed) && old(persisted) in {Error, Installing, Installed, Active} && ready
         && (old(persisted) == Active ==> !old(cluster.SeemsIntact(me))) && cluster.stowaway.podPresent
         && cluster.Answers() && Deployable(old(Data()), PortsOf(cluster.base))
         && |old(cluster.stowaway.table)| + |suffixes| <= END_PORT - FIRST_PORT) ==> persisted == Active
    {
      state := persisted;
      NothingRun(cluster.stowaway.table, AddOps(Data(), Data().destinationIP, suffixes));
      ReadyToSetUp(suffixes);
      if Active !in completed {
        return;
      }
      RestoreIfBroken();
      var _ := InstallAndActivate(installs, ready, suffixes);
    }

    /** Its first steps: a bridge in ERROR and one that is not found intact are restored. */
    method RestoreIfBroken()
      requires Valid() && state == persisted
      modifies this
      ensures Valid() && state == persisted
      ensures state == if old(state) == Error || (old(state) == Active && !cluster.SeemsIntact(me)) then Installed else old(state)
      ensures state == old(state) ==> completed == old(completed)
      ensures Active in completed <==> Active in old(completed)
    {
      if state == Error {
        Restore();
      }
      if state == Active {
        var intact := cluster.IsIntact(me);
        if intact != Success(true) {
          Restore();
        }
      }
    }

    /** The bridge has been active, and its state or a probe of its routes calls for a new setup. */
    ghost predicate Repairs(ready: bool)
      reads this, cluster, cluster.stowaway
      requires me < |cluster.bridges|
    {
      Active in completed &&
      match persisted
      case Error => true
      case Installed => true
      case Installing => ready
      case Active => !cluster.SeemsIntact(me)
      case _ => false
    }

    /** A teardown finds the bridge in the configuration. */
    ghost predicate Configured()
      reads this, cluster, cluster.stowaway
      requires me < |cluster.bridges|
    {
      SomeConfigured(cluster.stowaway.table, cluster.config, Data(), Data().destinationIP, |Data().portMappings|)
    }

    /** `bridge_delete`; as the state is not written, it may well run again. */
    method BridgeDelete()
      requires Valid()
      requires AddressOwned(cluster.stowaway.table, Data().client, Data().destinationIP)
      modifies this, cluster`config, cluster.stowaway`routes, cluster.stowaway`services, cluster.stowaway`table
      ensures Valid() && persisted == old(persisted) && completed == old(completed)
      ensures state == Terminating <==> Parses(Data())
      ensures TeardownStep(cluster.base, old(cluster.stowaway.table), cluster.bridges, old(cluster.config), me,
                           Data().destinationIP, cluster.stowaway.table, cluster.config)
      ensures state == Terminating ==>
        && cluster.stowaway.table == Run(old(cluster.stowaway.table), RemoveOps(Data(), Data().destinationIP))
        && NonePresent(cluster.stowaway.table, Data(), Data().destinationIP)
      ensures NonePresent(old(cluster.stowaway.table), Data(), Data().destinationIP) && state == Terminating ==>
        cluster.stowaway.routes == old(cluster.stowaway.routes) && cluster.stowaway.services == old(cluster.stowaway.services)
        && cluster.config == old(cluster.config)
      ensures state == Terminating ==>
        if cluster.Answers() && old(Configured())
        then NotEntered(cluster.config, Data().name)
             && IsDeclared(cluster.base, cluster.bridges[..me] + cluster.bridges[me + 1..], None, cluster.config)
        else cluster.config == old(cluster.config)
    {
      state := persisted;
      ghost var t, config0 := cluster.stowaway.table, cluster.config;
      var torn := cluster.HandleProxyrouteTeardown(me, cluster.bridges[me].destinationIP);
      if torn.Failure? {
        return;
      }
      SetState(Terminating);
      TornDownOutcome(t, config0, cluster.base, cluster.bridges, me, cluster.Answers(), cluster.stowaway.table, cluster.config);
      SameStores(t, old(cluster.stowaway.routes), old(cluster.stowaway.services),
                 cluster.stowaway.table, cluster.stowaway.routes, cluster.stowaway.services);
    }

    /**
      Deletion undoes activation: from a store without the bridge's destinations, activation, even one that ended
      in ERROR half way, and deletion restore exactly the routes and Services there were. A bridge that had become
      active is in no entry of the configuration any more if its mappings to one target port share the local port, or
      if one that wins its target port is the first on its local port; on a mount of its own the latter is exactly
      when.
     */
    method ActivateThenDelete(suffixes: seq<string>)
      requires Valid() && state == Installed
      requires Usable(cluster.stowaway.table, Data(), Data().destinationIP, suffixes)
      requires NonePresent(cluster.stowaway.table, Data(), Data().destinationIP)
      modifies this, cluster`bridges, cluster`config, cluster.stowaway`routes, cluster.stowaway`services, cluster.stowaway`table
      ensures Valid() && |cluster.bridges| == old(|cluster.bridges|) && Data() == old(Data()).(endpoints := Data().endpoints)
      ensures state == Terminating <==> Parses(Data())
      ensures persisted == Active ==> state == Terminating
      ensures state == Terminating ==>
        cluster.stowaway.routes == old(cluster.stowaway.routes) && cluster.stowaway.services == old(cluster.stowaway.services)
      ensures
        (persisted == Active && cluster.Answers() && Data().portMappings != []
         && (OneLocalPort(Data()) || FreesItself(Data()))) ==>
        && NotEntered(cluster.config, Data().name)
        && IsDeclared(cluster.base, cluster.bridges[..me] + cluster.bridges[me + 1..], None, cluster.config)
      ensures
        (persisted == Active && cluster.Answers() && |cluster.bridges| == 1
         && NotEntered(old(cluster.config), Data().name) && Data().portMappings != []) ==>
        (NotEntered(cluster.config, Data().name) <==> FreesItself(Data()))
      ensures
        (cluster.stowaway.podPresent && cluster.Answers() && Deployable(old(Data()), PortsOf(cluster.base))
         && |old(cluster.stowaway.table)| + |suffixes| <= END_PORT - FIRST_PORT) ==> persisted == Active
    {
      ghost var t, b := cluster.stowaway.table, Data();
      ActivateToDelete(suffixes);
      TeardownUndoesSetup(t, b, b.destinationIP, suffixes, cluster.stowaway.table);
      StillOwned(t, b, b.destinationIP, suffixes, cluster.stowaway.table);
      assert RemoveOps(Data(), b.destinationIP) == RemoveOps(b, b.destinationIP);
      BridgeDelete();
      SameStores(t, old(cluster.stowaway.routes), old(cluster.stowaway.services),
                 cluster.stowaway.table, cluster.stowaway.routes, cluster.stowaway.services);
    }

    /** Activation, with what it means for a later teardown. */
    method ActivateToDelete(suffixes: seq<string>)
      requires Valid() && state == Installed
      requires Usable(cluster.stowaway.table, Data(), Data().destinationIP, suffixes)
      modifies this, cluster`bridges, cluster`config, cluster.stowaway`routes, cluster.stowaway`services, cluster.stowaway`table
      ensures Valid() && |cluster.bridges| == old(|cluster.bridges|) && Data() == old(Data()).(endpoints := Data().endpoints)
      ensures state == persisted && (state == Active ==> Parses(Data()))
      ensures PartlyRun(old(cluster.stowaway.table), AddOps(old(Data()), old(Data()).destinationIP, suffixes), cluster.stowaway.table)
      ensures state == Active && Data().portMappings != [] && (OneLocalPort(Data()) || FreesItself(Data())) ==> Configured()
      ensures
        (state == Active && |cluster.bridges| == 1 && NotEntered(old(cluster.config), Data().name) && Data().portMappings != []) ==>
        (Configured() <==> FreesItself(Data())) && !NotEntered(cluster.config, Data().name)
      ensures
        (cluster.stowaway.podPresent && cluster.Answers() && Deployable(old(Data()), PortsOf(cluster.base))
         && |old(cluster.stowaway.table)| + |suffixes| <= END_PORT - FIRST_PORT) ==> state == Active
    {
      ghost var config0 := cluster.config;
      ReadyToSetUp(suffixes);
      Activate(suffixes);
      if state == Active {
        DeletionOutlook(cluster.stowaway.table, config0, cluster.base, cluster.bridges, me, cluster.config);
      }
    }
  }

  /** On a mount of its own a bridge can be set up if and only if it is deployable. */
  lemma AloneSetsUpIff(b: Bridge, base: seq<Proxy>, suffixes: seq<string>)
    requires Unbridged(base) && |suffixes| == |b.portMappings| <= END_PORT - FIRST_PORT
    ensures SetsUp(map[], base, b, b.destinationIP, suffixes, PortsOf(base), true, true, true) <==> Deployable(b, PortsOf(base))
  {
    var t: Table := map[];
    if Deployable(b, PortsOf(base)) {
      DeployableSetsUp(t, base, b, b.destinationIP, suffixes, PortsOf(base), true);
    } else {
      ReachableIsEntered(Run(t, AddOps(b, b.destinationIP, suffixes)), base, b, b.destinationIP, b.portMappings[0]);
      assert NotEntered(base, b.name);
    }
  }

  /** A mount of one bridge, which is not set up yet. */
  method NewMount(b: Bridge, base: seq<Proxy>) returns (bridge: GefyraBridge)
    requires b.endpoints.None? && Unbridged(base)
    ensures fresh(bridge) && fresh(bridge.cluster) && fresh(bridge.cluster.stowaway)
    ensures bridge.Valid() && bridge.me == 0 && bridge.state == Installed
    ensures bridge.cluster.bridges == [b] && bridge.cluster.Answers() && bridge.cluster.stowaway.podPresent
    ensures bridge.cluster.base == bridge.cluster.config == base
    ensures bridge.cluster.stowaway.table == map[]
    ensures bridge.cluster.stowaway.routes == map[] && bridge.cluster.stowaway.services == map[]
  {
    var stowaway := new Stowaway(true);
    assert forall key :: key !in EndpointsOf(b);
    assert OwnEndpoints(b);
    var cluster := new Cluster(stowaway, base, [b], true);
    bridge := new GefyraBridge(cluster, 0);
    var installed := bridge.Install(true, true);
  }

  /**
    A bridge becomes active on a mount of its own if and only if it is deployable, and is then intact if and only if
    its mappings to one target port share the local port.
   */
  method ActivateAlone(b: Bridge, base: seq<Proxy>, suffixes: seq<string>) returns (bridge: GefyraBridge)
    requires b.endpoints.None? && Unbridged(base)
    requires Usable(map[], b, b.destinationIP, suffixes) && |suffixes| <= END_PORT - FIRST_PORT
    ensures fresh(bridge) && bridge.Valid() && bridge.state == (if Deployable(b, PortsOf(base)) then Active else Error)
    ensures bridge.state == Active ==>
      (Intact(bridge.cluster.stowaway.table, bridge.cluster.config, bridge.Data()) <==> OneLocalPort(b))
  {
    bridge := NewMount(b, base);
    AloneSetsUpIff(b, base, suffixes);
    bridge.ActivateSole(suffixes);
  }

  /**
    Setup without intactness: `8080:80` and `9090:080` become active, but the entry for port 80 leads to one of the
    two local ports only.
   */
  method ActiveButNotIntact(b: Bridge, local: nat, local': nat, target: nat, suffixes: seq<string>) returns (bridge: GefyraBridge)
    requires b.portMappings == TwoWays(local, local', target) && local != local'
    requires b.endpoints.None? && RulesOf(b).Some? && Usable(map[], b, b.destinationIP, suffixes)
    ensures fresh(bridge) && bridge.Valid() && bridge.state == Active
    ensures !Intact(bridge.cluster.stowaway.table, bridge.cluster.config, bridge.Data())
  {
    var base := [Proxy(target, [], [])];
    assert PortsOf(base)[0] == target;
    TwoWaysDeployable(b, local, local', target, PortsOf(base));
    bridge := ActivateAlone(b, base, suffixes);
  }

  /**
    Every deployable bridge that is activated and deleted on a mount of its own leaves no route and no Service, and
    no entry in the configuration if and only if a mapping that wins its target port is the first on its local port.
   */
  method DeleteAlone(b: Bridge, base: seq<Proxy>, suffixes: seq<string>) returns (bridge: GefyraBridge)
    requires b.endpoints.None? && Unbridged(base) && Deployable(b, PortsOf(base)) && b.portMappings != []
    requires Usable(map[], b, b.destinationIP, suffixes) && |suffixes| <= END_PORT - FIRST_PORT
    ensures fresh(bridge) && bridge.Valid() && bridge.state == Terminating
    ensures bridge.cluster.stowaway.routes == map[] && bridge.cluster.stowaway.services == map[]
    ensures NotEntered(bridge.cluster.config, b.name) <==> FreesItself(b)
  {
    bridge := NewMount(b, base);
    bridge.ActivateThenDelete(suffixes);
    SameMappingsFree(b, bridge.Data());
  }

  /**
    Deletion without trace in the routes but not in the configuration: `1:90`, `2:80`, `1:80` and `2:90` become active
    and are deleted, and the entries of the bridge stay, leading to freed proxy ports.
   */
  method DeletedButConfigured(b: Bridge, local: nat, local': nat, target: nat, target': nat, suffixes: seq<string>)
      returns (bridge: GefyraBridge)
    requires b.portMappings == Crossed(local, local', target, target') && local != local' && target != target'
    requires b.endpoints.None? && RulesOf(b).Some? && Usable(map[], b, b.destinationIP, suffixes)
    ensures fresh(bridge) && bridge.Valid() && bridge.state == Terminating
    ensures bridge.cluster.stowaway.routes == map[] && bridge.cluster.stowaway.services == map[]
    ensures !NotEntered(bridge.cluster.config, b.name)
  {
    var base := [Proxy(target, [], []), Proxy(target', [], [])];
    assert PortsOf(base)[0] == target && PortsOf(base)[1] == target';
    CrossedDeployable(b, local, local', target, target', PortsOf(base));
    bridge := DeleteAlone(b, base, suffixes);
  }
}

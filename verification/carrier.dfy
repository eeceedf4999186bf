/**
  The Carrier2 configuration: how the list of GefyraBridges is compiled, with partial failures, into the
  `bridges` dictionaries of the proxies of one Pod.
 */
module CarrierConfig {
  import opened Wrappers
  import opened Text
  import opened Objects

  datatype CarrierBridge = CarrierBridge(endpoint: string, rules: seq<Rule>)

  /** An item of a `bridges` dictionary; the dictionary keeps insertion order, which YAML preserves. */
  datatype Named = Named(name: string, bridge: CarrierBridge)

  datatype Proxy = Proxy(port: nat, upstream: seq<string>, bridges: seq<Named>)

  // ----- Dictionaries in insertion order -----

  /** `d.update({name: bridge})`: in place if the key exists, else at the end. */
  function Put(d: seq<Named>, n: Named): seq<Named> {
    if d == [] then [n]
    else if d[0].name == n.name then [n] + d[1..]
    else [d[0]] + Put(d[1..], n)
  }

  function Lookup(d: seq<Named>, name: string): Option<CarrierBridge> {
    if d == [] then None
    else if d[0].name == name then Some(d[0].bridge)
    else Lookup(d[1..], name)
  }

  function PutAll(d: seq<Named>, ns: seq<Named>): seq<Named>
    decreases |ns|
  {
    if ns == [] then d else PutAll(Put(d, ns[0]), ns[1..])
  }

  lemma {:induction false} PutLookup(d: seq<Named>, n: Named, name: string)
    ensures Lookup(Put(d, n), name) == if name == n.name then Some(n.bridge) else Lookup(d, name)
  {
    if d != [] && d[0].name != n.name {
      PutLookup(d[1..], n, name);
      assert ([d[0]] + Put(d[1..], n))[1..] == Put(d[1..], n);
    }
  }

  lemma {:induction false} PutSame(d: seq<Named>, n: Named)
    requires Lookup(d, n.name) == Some(n.bridge)
    ensures Put(d, n) == d
  {
    if d[0].name != n.name {
      PutSame(d[1..], n);
    }
  }

  lemma {:induction false} PutNew(d: seq<Named>, n: Named)
    requires forall i :: 0 <= i < |d| ==> d[i].name != n.name
    ensures Put(d, n) == d + [n]
  {
    if d != [] {
      PutNew(d[1..], n);
    }
  }

  lemma PutTwice(d: seq<Named>, n: Named)
    ensures Put(Put(d, n), n) == Put(d, n)
  {
    PutLookup(d, n, n.name);
    PutSame(Put(d, n), n);
  }

  predicate DistinctNames(ns: seq<Named>) {
    forall i, j :: 0 <= i < j < |ns| ==> ns[i].name != ns[j].name
  }

  lemma {:induction false} PutAllAppends(d: seq<Named>, ns: seq<Named>)
    requires DistinctNames(d + ns)
    ensures PutAll(d, ns) == d + ns
    decreases |ns|
  {
    if ns != [] {
      forall i | 0 <= i < |d|
        ensures d[i].name != ns[0].name
      {
        assert (d + ns)[i] == d[i] && (d + ns)[|d|] == ns[0];
      }
      PutNew(d, ns[0]);
      assert d + [ns[0]] + ns[1..] == d + ns;
      PutAllAppends(d + [ns[0]], ns[1..]);
    }
  }

  lemma {:induction false} PutAllSame(d: seq<Named>, ns: seq<Named>)
    requires forall i :: 0 <= i < |ns| ==> Lookup(d, ns[i].name) == Some(ns[i].bridge)
    ensures PutAll(d, ns) == d
  {
    if ns != [] {
      PutSame(d, ns[0]);
      PutAllSame(d, ns[1..]);
    }
  }

  lemma {:induction false} LookupAt(ns: seq<Named>, i: nat)
    requires i < |ns| && DistinctNames(ns)
    ensures Lookup(ns, ns[i].name) == Some(ns[i].bridge)
  {
    if i > 0 {
      assert ns[1..][i - 1] == ns[i];
      LookupAt(ns[1..], i - 1);
    }
  }

  lemma {:induction false} LookupAbsent(ns: seq<Named>, name: string)
    requires forall i :: 0 <= i < |ns| ==> ns[i].name != name
    ensures Lookup(ns, name).None?
  {
    if ns != [] {
      LookupAbsent(ns[1..], name);
    }
  }

  // ----- One bridge -----

  /** `int(port.split(":")[1])` */
  function Target(mapping: string): Option<nat> {
    var parts := Split(mapping, ':');
    if |parts| > 1 then ParseNat(parts[1]) else None
  }

  function PortsOf(proxies: seq<Proxy>): (ports: seq<nat>)
    ensures |ports| == |proxies| && forall i :: 0 <= i < |ports| ==> ports[i] == proxies[i].port
  {
    seq(|proxies|, i requires 0 <= i < |proxies| => proxies[i].port)
  }

  /** The first proxy that serves the port. */
  function FindProxy(ports: seq<nat>, p: nat): (r: Option<nat>)
    ensures r.Some? ==> r.value < |ports| && ports[r.value] == p && forall i :: 0 <= i < r.value ==> ports[i] != p
    ensures r.None? ==> p !in ports
  {
    if ports == [] then None
    else if ports[0] == p then Some(0)
    else
      match FindProxy(ports[1..], p)
      case Some(i) => Some(i + 1)
      case None => None
  }

  /** The rules that carry a `match`, in order; `None` if one of them does not validate. */
  function MatchingRules(raw: seq<RawRule>): Option<seq<Rule>> {
    if raw == [] then Some([])
    else
      match raw[0]
      case Invalid => None
      case NoMatch => MatchingRules(raw[1..])
      case Matching(rule) =>
        (match MatchingRules(raw[1..])
         case Some(rules) => Some([rule] + rules)
         case None => None)
  }

  /** Every rule with a match stays, those without go, one that does not validate spoils the list. */
  lemma SingleRules(rule: Rule)
    ensures MatchingRules([]) == Some([]) && MatchingRules([NoMatch]) == Some([]) && MatchingRules([Invalid]).None?
    ensures MatchingRules([Matching(rule)]) == Some([rule])
  {
    assert [NoMatch][1..] == [] && [Matching(rule)][1..] == [];
    assert [rule] + [] == [rule];
  }

  /** Part by part, in the order of the list. */
  lemma {:induction false} MatchingRulesAre(xs: seq<RawRule>, ys: seq<RawRule>)
    ensures MatchingRules(xs).Some? && MatchingRules(ys).Some? ==>
      MatchingRules(xs + ys) == Some(MatchingRules(xs).value + MatchingRules(ys).value)
    ensures MatchingRules(xs).None? || MatchingRules(ys).None? ==> MatchingRules(xs + ys).None?
  {
    if xs == [] {
      assert xs + ys == ys;
      if MatchingRules(ys).Some? {
        assert [] + MatchingRules(ys).value == MatchingRules(ys).value;
      }
    } else {
      assert (xs + ys)[0] == xs[0] && (xs + ys)[1..] == xs[1..] + ys;
      MatchingRulesAre(xs[1..], ys);
      if MatchingRules(xs).Some? && MatchingRules(ys).Some? && xs[0].Matching? {
        var rest := MatchingRules(xs[1..]).value;
        assert MatchingRules(xs).value == [xs[0].rule] + rest;
        assert [xs[0].rule] + (rest + MatchingRules(ys).value) == [xs[0].rule] + rest + MatchingRules(ys).value;
      }
    }
  }

  function RulesOf(b: Bridge): Option<seq<Rule>> {
    match b.rules
    case Some(raw) => MatchingRules(raw)
    case None => None
  }

  /** `_convert_bridge_to_rule`; `None` where it raises. */
  function Convert(b: Bridge, p: nat): Option<CarrierBridge> {
    if Str(p) !in EndpointsOf(b) then None
    else
      match RulesOf(b)
      case Some(rules) => Some(CarrierBridge(EndpointsOf(b)[Str(p)], rules))
      case None => None
  }

  predicate MappingOk(b: Bridge, ports: seq<nat>, mapping: string) {
    Target(mapping).Some? && Target(mapping).value in ports && Convert(b, Target(mapping).value).Some?
  }

  predicate AllOk(b: Bridge, ports: seq<nat>, mappings: seq<string>) {
    forall i {:trigger MappingOk(b, ports, mappings[i])} :: 0 <= i < |mappings| ==> MappingOk(b, ports, mappings[i])
  }

  lemma AllOkExtends(b: Bridge, ports: seq<nat>, done: seq<string>, mapping: string)
    requires AllOk(b, ports, done) && MappingOk(b, ports, mapping)
    ensures AllOk(b, ports, done + [mapping])
  {
    var all := done + [mapping];
    forall i | 0 <= i < |all|
      ensures MappingOk(b, ports, all[i])
    {
      if i < |done| {
        assert all[i] == done[i] && MappingOk(b, ports, done[i]);
      } else {
        assert all[i] == mapping;
      }
    }
  }

  /** How many mappings are compiled before the first fault. */
  function GoodPrefix(b: Bridge, ports: seq<nat>, mappings: seq<string>): (g: nat)
    ensures g <= |mappings|
    ensures forall i {:trigger MappingOk(b, ports, mappings[i])} :: 0 <= i < g ==> MappingOk(b, ports, mappings[i])
    ensures g < |mappings| ==> !MappingOk(b, ports, mappings[g])
  {
    if mappings == [] || !MappingOk(b, ports, mappings[0]) then 0
    else 1 + GoodPrefix(b, ports, mappings[1..])
  }

  predicate Faulty(b: Bridge, ports: seq<nat>) {
    !AllOk(b, ports, b.portMappings)
  }

  /** One of the mappings before the first fault targets `p`. */
  predicate TargetsIn(b: Bridge, ports: seq<nat>, mappings: seq<string>, p: nat) {
    exists i :: 0 <= i < GoodPrefix(b, ports, mappings) && Target(mappings[i]) == Some(p)
  }

  /** The bridge successfully maps `p`. */
  predicate Maps(b: Bridge, ports: seq<nat>, p: nat) { TargetsIn(b, ports, b.portMappings, p) }

  lemma MapsConverts(b: Bridge, ports: seq<nat>, p: nat)
    requires Maps(b, ports, p)
    ensures p in ports && Convert(b, p).Some?
  {
    TargetConverts(b, ports, b.portMappings, p);
  }

  // ----- What compiling a list means -----

  predicate Included(b: Bridge, rm: Option<string>) { rm != Some(b.name) }

  predicate Entered(b: Bridge, ports: seq<nat>, p: nat, rm: Option<string>) { Included(b, rm) && Maps(b, ports, p) }

  function EntryOf(b: Bridge, ports: seq<nat>, p: nat): Named
    requires Maps(b, ports, p)
  {
    MapsConverts(b, ports, p);
    Named(b.name, Convert(b, p).value)
  }

  /** The one entry, or none, of a bridge for port `p`. */
  function Single(b: Bridge, ports: seq<nat>, p: nat, rm: Option<string>): seq<Named> {
    if Entered(b, ports, p, rm) then [EntryOf(b, ports, p)] else []
  }

  function Entries(ports: seq<nat>, p: nat, rm: Option<string>): Bridge -> seq<Named> {
    b => Single(b, ports, p, rm)
  }

  function FlatMap(bridges: seq<Bridge>, f: Bridge -> seq<Named>): seq<Named> {
    if bridges == [] then [] else f(bridges[0]) + FlatMap(bridges[1..], f)
  }

  /** The entries for port `p`, bridge by bridge in list order. */
  function Expected(bridges: seq<Bridge>, ports: seq<nat>, p: nat, rm: Option<string>): seq<Named> {
    FlatMap(bridges, Entries(ports, p, rm))
  }

  /** Every proxy that is the first for its port receives the entries of its port; nothing else changes. */
  predicate IsDeclared(proxies: seq<Proxy>, bridges: seq<Bridge>, rm: Option<string>, result: seq<Proxy>) {
    && |result| == |proxies|
    && forall i {:trigger result[i]} :: 0 <= i < |proxies| ==>
        result[i] == proxies[i].(bridges :=
          if FindProxy(PortsOf(proxies), proxies[i].port) == Some(i)
          then PutAll(proxies[i].bridges, Expected(bridges, PortsOf(proxies), proxies[i].port, rm))
          else proxies[i].bridges)
  }

  predicate FailsAdding(b: Bridge, ports: seq<nat>, add: Option<string>, rm: Option<string>) {
    add == Some(b.name) && Included(b, rm) && Faulty(b, ports)
  }

  /** The bridge being added is in the list, not excluded, and faulty. */
  predicate AddFails(bridges: seq<Bridge>, ports: seq<nat>, add: Option<string>, rm: Option<string>) {
    exists i {:trigger FailsAdding(bridges[i], ports, add, rm)} :: 0 <= i < |bridges| && FailsAdding(bridges[i], ports, add, rm)
  }

  lemma AddFailsAt(bridges: seq<Bridge>, ports: seq<nat>, add: Option<string>, rm: Option<string>, n: nat)
    requires n < |bridges|
    ensures FailsAdding(bridges[n], ports, add, rm) ==> AddFails(bridges, ports, add, rm)
    ensures AddFails(bridges[..n + 1], ports, add, rm) <==>
      AddFails(bridges[..n], ports, add, rm) || FailsAdding(bridges[n], ports, add, rm)
  {
    if AddFails(bridges[..n + 1], ports, add, rm) {
      var i :| 0 <= i < n + 1 && FailsAdding(bridges[..n + 1][i], ports, add, rm);
      if i < n {
        assert FailsAdding(bridges[..n][i], ports, add, rm);
      }
    }
    if AddFails(bridges[..n], ports, add, rm) {
      var i :| 0 <= i < n && FailsAdding(bridges[..n][i], ports, add, rm);
      assert FailsAdding(bridges[..n + 1][i], ports, add, rm);
    }
    if FailsAdding(bridges[n], ports, add, rm) {
      assert FailsAdding(bridges[..n + 1][n], ports, add, rm);
    }
  }

  // ----- The compiler -----

  class Carrier2Config {
    var proxy: seq<Proxy>

    constructor (proxies: seq<Proxy>)
      ensures proxy == proxies
    {
      proxy := proxies;
    }

    /**
      `add_bridge_rules_for_mount`: a fault of one bridge ends that bridge only, unless it is the one being added.
      After a raise the half-built configuration is dropped by the callers.
     */
    method AddBridgeRulesForMount(bridges: seq<Bridge>, add: Option<string>, rm: Option<string>) returns (r: Result<()>)
      modifies this
      ensures PortsOf(proxy) == PortsOf(old(proxy))
      ensures r.Failure? <==> AddFails(bridges, PortsOf(old(proxy)), add, rm)
      ensures r.Success? ==> IsDeclared(old(proxy), bridges, rm, proxy)
    {
      ghost var start := proxy;
      for n := 0 to |bridges|
        invariant CompiledUpTo(start, bridges, n, add, rm, proxy)
      {
        ghost var before := proxy;
        var failed := AddUnlessExcluded(bridges[n], add, rm);
        CompiledStep(start, bridges, n, add, rm, before, proxy, failed);
        if failed {
          return Failure("Could not install GefyraBridge");
        }
      }
      assert bridges[..|bridges|] == bridges;
      return Success(());
    }

    /** The body of the loop; the result says whether it raises. */
    method AddUnlessExcluded(bridge: Bridge, add: Option<string>, rm: Option<string>) returns (failed: bool)
      modifies this
      ensures PortsOf(proxy) == PortsOf(old(proxy))
      ensures failed <==> FailsAdding(bridge, PortsOf(old(proxy)), add, rm)
      ensures if Included(bridge, rm) then BridgeEntered(old(proxy), bridge, bridge.portMappings, proxy) else proxy == old(proxy)
    {
      failed := false;
      if rm != Some(bridge.name) {
        var ok := AddBridge(bridge);
        failed := !ok && add == Some(bridge.name);
      }
    }

    /** The `try` block for one bridge; the result says whether it got through. */
    method AddBridge(bridge: Bridge) returns (ok: bool)
      modifies this
      ensures PortsOf(proxy) == PortsOf(old(proxy))
      ensures ok <==> !Faulty(bridge, PortsOf(old(proxy)))
      ensures BridgeEntered(old(proxy), bridge, bridge.portMappings, proxy)
    {
      ghost var ports := PortsOf(proxy);
      for n := 0 to |bridge.portMappings|
        invariant PortsOf(proxy) == ports
        invariant AllOk(bridge, ports, bridge.portMappings[..n])
        invariant BridgeEntered(old(proxy), bridge, bridge.portMappings[..n], proxy)
      {
        var mapping := bridge.portMappings[n];
        ghost var before := proxy;
        var entered := EnterMapping(bridge, mapping);
        if !entered {
          StopAt(old(proxy), bridge, n, proxy);
          return false;
        }
        assert bridge.portMappings[..n + 1] == bridge.portMappings[..n] + [mapping];
        AllOkExtends(bridge, ports, bridge.portMappings[..n], mapping);
        EnteredExtends(old(proxy), bridge, bridge.portMappings[..n], mapping, before, proxy);
      }
      assert bridge.portMappings[..|bridge.portMappings|] == bridge.portMappings;
      return true;
    }

    /** The body of the inner loop: one port of one bridge. */
    method EnterMapping(bridge: Bridge, mapping: string) returns (ok: bool)
      modifies this
      ensures ok <==> MappingOk(bridge, PortsOf(old(proxy)), mapping)
      ensures !ok ==> proxy == old(proxy)
      ensures ok ==> MappingEntered(old(proxy), bridge, mapping, proxy)
    {
      var rport := Target(mapping);
      if rport.None? {
        return false;
      }
      var idx := FindProxy(PortsOf(proxy), rport.value);
      if idx.None? {
        return false;
      }
      var converted := ConvertBridgeToRule(bridge, rport.value);
      if converted.None? {
        return false;
      }
      var d := Put(proxy[idx.value].bridges, Named(bridge.name, converted.value));
      proxy := proxy[idx.value := proxy[idx.value].(bridges := d)];
      return true;
    }
  }

  predicate MappingEntered(before: seq<Proxy>, b: Bridge, mapping: string, after: seq<Proxy>) {
    MappingOk(b, PortsOf(before), mapping) &&
    var p := Target(mapping).value;
    var i := FindProxy(PortsOf(before), p);
    i.Some? && after == before[i.value := before[i.value].(bridges :=
      Put(before[i.value].bridges, Named(b.name, Convert(b, p).value)))]
  }

  /** `_convert_bridge_to_rule` */
  method ConvertBridgeToRule(bridge: Bridge, p: nat) returns (r: Option<CarrierBridge>)
    ensures r == Convert(bridge, p)
  {
    if Str(p) !in EndpointsOf(bridge) {
      return None;
    }
    var rules := GetRulesForBridge(bridge);
    if rules.None? {
      return None;
    }
    return Some(CarrierBridge(EndpointsOf(bridge)[Str(p)], rules.value));
  }

  /** `_get_rules_for_bridge` */
  method GetRulesForBridge(bridge: Bridge) returns (r: Option<seq<Rule>>)
    ensures r == RulesOf(bridge)
  {
    if bridge.rules.None? {
      return None;
    }
    var raw := bridge.rules.value;
    var rules: seq<Rule> := [];
    for i := 0 to |raw|
      invariant MatchingRules(raw).Some? == MatchingRules(raw[i..]).Some?
      invariant MatchingRules(raw).Some? ==> MatchingRules(raw).value == rules + MatchingRules(raw[i..]).value
    {
      assert raw[i..][0] == raw[i] && raw[i..][1..] == raw[i + 1..];
      match raw[i] {
        case Invalid => return None;
        case NoMatch =>
        case Matching(rule) => rules := rules + [rule];
      }
    }
    assert raw[|raw|..] == [] && rules + [] == rules;
    return Some(rules);
  }

  /** `d` with `b` entered, if `p` is among the targets of `mappings` up to the first fault. */
  function EnteredIn(d: seq<Named>, b: Bridge, ports: seq<nat>, mappings: seq<string>, p: nat): seq<Named> {
    if TargetsIn(b, ports, mappings, p) then
      TargetConverts(b, ports, mappings, p);
      Put(d, Named(b.name, Convert(b, p).value))
    else d
  }

  predicate BridgeEntered(proxies: seq<Proxy>, b: Bridge, mappings: seq<string>, result: seq<Proxy>) {
    && |result| == |proxies|
    && forall i {:trigger result[i]} :: 0 <= i < |proxies| ==>
        result[i] == proxies[i].(bridges :=
          if FindProxy(PortsOf(proxies), proxies[i].port) == Some(i)
          then EnteredIn(proxies[i].bridges, b, PortsOf(proxies), mappings, proxies[i].port)
          else proxies[i].bridges)
  }

  lemma TargetConverts(b: Bridge, ports: seq<nat>, mappings: seq<string>, p: nat)
    requires TargetsIn(b, ports, mappings, p)
    ensures p in ports && Convert(b, p).Some?
  {
    var i :| 0 <= i < GoodPrefix(b, ports, mappings) && Target(mappings[i]) == Some(p);
    assert MappingOk(b, ports, mappings[i]);
  }

  lemma GoodPrefixOf(b: Bridge, ports: seq<nat>, mappings: seq<string>, n: nat)
    requires n <= |mappings| && AllOk(b, ports, mappings[..n])
    ensures GoodPrefix(b, ports, mappings) >= n
    ensures GoodPrefix(b, ports, mappings[..n]) == n
  {
  }

  /** Where the loop stops at mapping `n`, the mappings before it are all that count. */
  lemma MappingStep(b: Bridge, ports: seq<nat>, mappings: seq<string>, n: nat)
    requires n < |mappings| && AllOk(b, ports, mappings[..n])
    ensures !MappingOk(b, ports, mappings[n]) ==>
      forall p :: TargetsIn(b, ports, mappings, p) <==> TargetsIn(b, ports, mappings[..n], p)
  {
    GoodPrefixOf(b, ports, mappings, n);
    if !MappingOk(b, ports, mappings[n]) {
      assert GoodPrefix(b, ports, mappings) == n;
      forall p
        ensures TargetsIn(b, ports, mappings, p) <==> TargetsIn(b, ports, mappings[..n], p)
      {
        assert forall i :: 0 <= i < n ==> mappings[..n][i] == mappings[i];
      }
    }
  }

  /** A fault at mapping `n` leaves what the mappings before it have entered. */
  lemma StopAt(start: seq<Proxy>, b: Bridge, n: nat, after: seq<Proxy>)
    requires n < |b.portMappings|
    requires AllOk(b, PortsOf(start), b.portMappings[..n])
    requires !MappingOk(b, PortsOf(start), b.portMappings[n])
    requires BridgeEntered(start, b, b.portMappings[..n], after)
    ensures BridgeEntered(start, b, b.portMappings, after)
    ensures Faulty(b, PortsOf(start))
  {
    MappingStep(b, PortsOf(start), b.portMappings, n);
    assert !MappingOk(b, PortsOf(start), b.portMappings[n]);
    forall i | 0 <= i < |start|
      ensures EnteredIn(start[i].bridges, b, PortsOf(start), b.portMappings[..n], start[i].port)
        == EnteredIn(start[i].bridges, b, PortsOf(start), b.portMappings, start[i].port)
    {
    }
  }

  lemma TargetsAppend(b: Bridge, ports: seq<nat>, done: seq<string>, mapping: string, q: nat)
    requires AllOk(b, ports, done)
    requires MappingOk(b, ports, mapping)
    ensures TargetsIn(b, ports, done + [mapping], q) <==> TargetsIn(b, ports, done, q) || Target(mapping) == Some(q)
  {
    var all := done + [mapping];
    assert forall i :: 0 <= i < |done| ==> all[i] == done[i];
    assert all[|done|] == mapping;
    GoodPrefixOf(b, ports, done, |done|);
    GoodPrefixOf(b, ports, all, |all|);
  }

  lemma EnteredAgain(d: seq<Named>, b: Bridge, ports: seq<nat>, done: seq<string>, mapping: string, q: nat)
    requires AllOk(b, ports, done)
    requires MappingOk(b, ports, mapping)
    ensures EnteredIn(d, b, ports, done + [mapping], q) ==
      if Target(mapping) == Some(q)
      then Put(EnteredIn(d, b, ports, done, q), Named(b.name, Convert(b, q).value))
      else EnteredIn(d, b, ports, done, q)
  {
    TargetsAppend(b, ports, done, mapping, q);
    if Target(mapping) == Some(q) {
      PutTwice(d, Named(b.name, Convert(b, q).value));
    }
  }

  lemma EnteredExtends(start: seq<Proxy>, b: Bridge, done: seq<string>, mapping: string, before: seq<Proxy>, after: seq<Proxy>)
    requires PortsOf(before) == PortsOf(start)
    requires BridgeEntered(start, b, done, before)
    requires AllOk(b, PortsOf(start), done)
    requires MappingEntered(before, b, mapping, after)
    ensures PortsOf(after) == PortsOf(start)
    ensures BridgeEntered(start, b, done + [mapping], after)
  {
    forall i | 0 <= i < |start|
      ensures after[i] == start[i].(bridges :=
          if FindProxy(PortsOf(start), start[i].port) == Some(i)
          then EnteredIn(start[i].bridges, b, PortsOf(start), done + [mapping], start[i].port)
          else start[i].bridges)
    {
      EnteredAgain(start[i].bridges, b, PortsOf(start), done, mapping, start[i].port);
    }
  }

  lemma {:induction false} FlatMapAppend(xs: seq<Bridge>, ys: seq<Bridge>, f: Bridge -> seq<Named>)
    ensures FlatMap(xs + ys, f) == FlatMap(xs, f) + FlatMap(ys, f)
  {
    if xs == [] {
      assert xs + ys == ys;
    } else {
      assert (xs + ys)[0] == xs[0] && (xs + ys)[1..] == xs[1..] + ys;
      FlatMapAppend(xs[1..], ys, f);
    }
  }

  lemma FlatMapSingle(b: Bridge, f: Bridge -> seq<Named>)
    ensures FlatMap([b], f) == f(b)
  {
    assert [b][1..] == [];
  }

  lemma ExpectedAppend(xs: seq<Bridge>, ys: seq<Bridge>, ports: seq<nat>, p: nat, rm: Option<string>)
    ensures Expected(xs + ys, ports, p, rm) == Expected(xs, ports, p, rm) + Expected(ys, ports, p, rm)
  {
    FlatMapAppend(xs, ys, Entries(ports, p, rm));
  }

  lemma ExpectedSingle(b: Bridge, ports: seq<nat>, p: nat, rm: Option<string>)
    ensures Expected([b], ports, p, rm) == Single(b, ports, p, rm)
  {
    FlatMapSingle(b, Entries(ports, p, rm));
  }

  lemma {:induction false} PutAllAppend(d: seq<Named>, xs: seq<Named>, ys: seq<Named>)
    ensures PutAll(d, xs + ys) == PutAll(PutAll(d, xs), ys)
    decreases |xs|
  {
    if xs == [] {
      assert xs + ys == ys;
    } else {
      assert (xs + ys)[1..] == xs[1..] + ys;
      PutAllAppend(Put(d, xs[0]), xs[1..], ys);
    }
  }

  lemma DeclaredExtends(start: seq<Proxy>, done: seq<Bridge>, b: Bridge, rm: Option<string>, before: seq<Proxy>, after: seq<Proxy>)
    requires IsDeclared(start, done, rm, before) && PortsOf(before) == PortsOf(start)
    requires if Included(b, rm) then BridgeEntered(before, b, b.portMappings, after) else after == before
    ensures IsDeclared(start, done + [b], rm, after)
  {
    var ports := PortsOf(start);
    forall i | 0 <= i < |start|
      ensures after[i] == start[i].(bridges :=
          if FindProxy(ports, start[i].port) == Some(i)
          then PutAll(start[i].bridges, Expected(done + [b], ports, start[i].port, rm))
          else start[i].bridges)
    {
      var p := start[i].port;
      assert before[i].port == p;
      ExpectedAppend(done, [b], ports, p, rm);
      PutAllAppend(start[i].bridges, Expected(done, ports, p, rm), Expected([b], ports, p, rm));
      ExpectedSingle(b, ports, p, rm);
      var d := PutAll(start[i].bridges, Expected(done, ports, p, rm));
      if Entered(b, ports, p, rm) {
        var n := EntryOf(b, ports, p);
        assert [n][1..] == [];
        assert PutAll(d, [n]) == PutAll(Put(d, n), []) == Put(d, n);
      }
    }
  }

  /** The first `n` bridges have been compiled, and none of them made the compiler raise. */
  predicate CompiledUpTo(start: seq<Proxy>, bridges: seq<Bridge>, n: nat, add: Option<string>, rm: Option<string>, proxies: seq<Proxy>) {
    && n <= |bridges| && PortsOf(proxies) == PortsOf(start)
    && IsDeclared(start, bridges[..n], rm, proxies) && !AddFails(bridges[..n], PortsOf(start), add, rm)
  }

  lemma CompiledStep(start: seq<Proxy>, bridges: seq<Bridge>, n: nat, add: Option<string>, rm: Option<string>,
                     before: seq<Proxy>, after: seq<Proxy>, failed: bool)
    requires n < |bridges| && CompiledUpTo(start, bridges, n, add, rm, before) && PortsOf(after) == PortsOf(before)
    requires failed <==> FailsAdding(bridges[n], PortsOf(before), add, rm)
    requires if Included(bridges[n], rm) then BridgeEntered(before, bridges[n], bridges[n].portMappings, after) else after == before
    ensures failed ==> AddFails(bridges, PortsOf(start), add, rm)
    ensures !failed ==> CompiledUpTo(start, bridges, n + 1, add, rm, after)
  {
    assert bridges[..n + 1] == bridges[..n] + [bridges[n]];
    AddFailsAt(bridges, PortsOf(start), add, rm, n);
    DeclaredExtends(start, bridges[..n], bridges[n], rm, before, after);
  }

  // ----- Properties of the compiled configuration -----

  predicate DistinctBridges(bridges: seq<Bridge>) {
    forall i, j :: 0 <= i < j < |bridges| ==> bridges[i].name != bridges[j].name
  }

  predicate Unnamed(bridges: seq<Bridge>, name: string) {
    forall i :: 0 <= i < |bridges| ==> bridges[i].name != name
  }

  /** Every entry carries the name of its bridge, and there is at most one. */
  predicate OwnName(b: Bridge, f: Bridge -> seq<Named>) {
    |f(b)| <= 1 && (f(b) != [] ==> f(b)[0].name == b.name)
  }

  lemma {:induction false} FlatMapUnnamed(bridges: seq<Bridge>, f: Bridge -> seq<Named>, name: string)
    requires Unnamed(bridges, name) && forall b :: OwnName(b, f)
    ensures forall i :: 0 <= i < |FlatMap(bridges, f)| ==> FlatMap(bridges, f)[i].name != name
  {
    if bridges != [] {
      FlatMapUnnamed(bridges[1..], f, name);
      assert OwnName(bridges[0], f) && bridges[0].name != name;
    }
  }

  lemma {:induction false} FlatMapNames(bridges: seq<Bridge>, f: Bridge -> seq<Named>)
    requires DistinctBridges(bridges) && forall b :: OwnName(b, f)
    ensures DistinctNames(FlatMap(bridges, f))
  {
    if bridges != [] {
      FlatMapNames(bridges[1..], f);
      FlatMapUnnamed(bridges[1..], f, bridges[0].name);
      assert OwnName(bridges[0], f);
    }
  }

  lemma EntriesOwnName(ports: seq<nat>, p: nat, rm: Option<string>)
    ensures forall b :: OwnName(b, Entries(ports, p, rm))
  {
  }

  lemma ExpectedNames(bridges: seq<Bridge>, ports: seq<nat>, p: nat, rm: Option<string>)
    requires DistinctBridges(bridges)
    ensures DistinctNames(Expected(bridges, ports, p, rm))
  {
    EntriesOwnName(ports, p, rm);
    FlatMapNames(bridges, Entries(ports, p, rm));
  }

  predicate Unbridged(proxies: seq<Proxy>) {
    forall i :: 0 <= i < |proxies| ==> proxies[i].bridges == []
  }

  /** From a configuration without bridges, each port gets exactly the entries of its bridges, in list order. */
  lemma DeclaredFromEmpty(proxies: seq<Proxy>, bridges: seq<Bridge>, rm: Option<string>, result: seq<Proxy>)
    requires Unbridged(proxies) && DistinctBridges(bridges) && IsDeclared(proxies, bridges, rm, result)
    ensures forall i :: 0 <= i < |result| ==>
      result[i] == proxies[i].(bridges :=
        if FindProxy(PortsOf(proxies), proxies[i].port) == Some(i)
        then Expected(bridges, PortsOf(proxies), proxies[i].port, rm) else [])
  {
    forall i | 0 <= i < |proxies|
      ensures PutAll([], Expected(bridges, PortsOf(proxies), proxies[i].port, rm))
        == Expected(bridges, PortsOf(proxies), proxies[i].port, rm)
    {
      var e := Expected(bridges, PortsOf(proxies), proxies[i].port, rm);
      ExpectedNames(bridges, PortsOf(proxies), proxies[i].port, rm);
      assert [] + e == e;
      PutAllAppends([], e);
    }
  }

  /** A second compilation of the same list changes nothing. */
  lemma CompileTwice(proxies: seq<Proxy>, bridges: seq<Bridge>, rm: Option<string>, once: seq<Proxy>, twice: seq<Proxy>)
    requires Unbridged(proxies) && DistinctBridges(bridges)
    requires IsDeclared(proxies, bridges, rm, once) && IsDeclared(once, bridges, rm, twice)
    ensures twice == once
  {
    DeclaredFromEmpty(proxies, bridges, rm, once);
    var ports := PortsOf(proxies);
    assert PortsOf(once) == ports;
    forall i | 0 <= i < |once|
      ensures twice[i] == once[i]
    {
      var e := Expected(bridges, ports, once[i].port, rm);
      ExpectedNames(bridges, ports, once[i].port, rm);
      forall j | 0 <= j < |e|
        ensures Lookup(e, e[j].name) == Some(e[j].bridge)
      {
        LookupAt(e, j);
      }
      PutAllSame(e, e);
    }
  }

  lemma {:induction false} LookupAppend(xs: seq<Named>, ys: seq<Named>, name: string)
    ensures Lookup(xs + ys, name) == if Lookup(xs, name).Some? then Lookup(xs, name) else Lookup(ys, name)
  {
    if xs == [] {
      assert xs + ys == ys;
    } else {
      assert (xs + ys)[0] == xs[0] && (xs + ys)[1..] == xs[1..] + ys;
      LookupAppend(xs[1..], ys, name);
    }
  }

  lemma NoEntry(bridges: seq<Bridge>, ports: seq<nat>, p: nat, rm: Option<string>, name: string)
    requires Unnamed(bridges, name)
    ensures Lookup(Expected(bridges, ports, p, rm), name).None?
  {
    EntriesOwnName(ports, p, rm);
    FlatMapUnnamed(bridges, Entries(ports, p, rm), name);
    LookupAbsent(Expected(bridges, ports, p, rm), name);
  }

  /**
    As a dictionary the result does not depend on the order of the list, nor on the other bridges in it: a bridge
    has its entry if and only if it is included and maps the port.
   */
  lemma EntryIff(xs: seq<Bridge>, b: Bridge, ys: seq<Bridge>, ports: seq<nat>, p: nat, rm: Option<string>)
    requires Unnamed(xs, b.name) && Unnamed(ys, b.name)
    ensures Lookup(Expected(xs + [b] + ys, ports, p, rm), b.name)
      == if Entered(b, ports, p, rm) then Some(EntryOf(b, ports, p).bridge) else None
  {
    OthersUnaffected(xs, b, ys, ports, p, rm);
    NoEntry(xs, ports, p, rm, b.name);
    NoEntry(ys, ports, p, rm, b.name);
    var before := Expected(xs, ports, p, rm);
    LookupAppend(before + Single(b, ports, p, rm), Expected(ys, ports, p, rm), b.name);
    LookupAppend(before, Single(b, ports, p, rm), b.name);
  }

  /** Fault isolation: whatever is wrong with `b`, the other entries are the same as without it, in the same order. */
  lemma OthersUnaffected(xs: seq<Bridge>, b: Bridge, ys: seq<Bridge>, ports: seq<nat>, p: nat, rm: Option<string>)
    ensures Expected(xs + [b] + ys, ports, p, rm)
      == Expected(xs, ports, p, rm) + Single(b, ports, p, rm) + Expected(ys, ports, p, rm)
    ensures Expected(xs + ys, ports, p, rm) == Expected(xs, ports, p, rm) + Expected(ys, ports, p, rm)
  {
    ExpectedAppend(xs + [b], ys, ports, p, rm);
    ExpectedAppend(xs, [b], ports, p, rm);
    ExpectedAppend(xs, ys, ports, p, rm);
    ExpectedSingle(b, ports, p, rm);
  }

  /** Excluding a bridge is the same as compiling the list without it. */
  lemma ExcludeIsDelete(xs: seq<Bridge>, b: Bridge, ys: seq<Bridge>, ports: seq<nat>, p: nat)
    requires Unnamed(xs, b.name) && Unnamed(ys, b.name)
    ensures Expected(xs + [b] + ys, ports, p, Some(b.name)) == Expected(xs + ys, ports, p, None)
  {
    OthersUnaffected(xs, b, ys, ports, p, Some(b.name));
    OthersUnaffected(xs, b, ys, ports, p, None);
    ExclusionOfOthers(xs, ports, p, b.name);
    ExclusionOfOthers(ys, ports, p, b.name);
  }

  lemma {:induction false} FlatMapAgree(bridges: seq<Bridge>, f: Bridge -> seq<Named>, g: Bridge -> seq<Named>)
    requires forall i :: 0 <= i < |bridges| ==> f(bridges[i]) == g(bridges[i])
    ensures FlatMap(bridges, f) == FlatMap(bridges, g)
  {
    if bridges != [] {
      assert f(bridges[0]) == g(bridges[0]);
      assert forall i :: 0 <= i < |bridges[1..]| ==> bridges[1..][i] == bridges[i + 1];
      FlatMapAgree(bridges[1..], f, g);
    }
  }

  lemma ExclusionOfOthers(bridges: seq<Bridge>, ports: seq<nat>, p: nat, name: string)
    requires Unnamed(bridges, name)
    ensures Expected(bridges, ports, p, Some(name)) == Expected(bridges, ports, p, None)
  {
    FlatMapAgree(bridges, Entries(ports, p, Some(name)), Entries(ports, p, None));
  }
}

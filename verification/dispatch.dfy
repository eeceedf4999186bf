/**
  Carrier2's request routing: first client whose OR of AND groups hits, else the cluster. Regular expressions
  are the parameter `re(pattern, text)`.
 */
module Dispatch {
  import opened Wrappers
  import opened Text
  import opened Objects
  import opened CarrierConfig

  type Matcher = (string, string) -> bool

  /** `path` is `path_and_query`. */
  datatype Request = Request(path: string, headers: seq<(string, string)>)

  datatype Upstream = Peer(endpoint: string) | ClusterUpstream

  datatype GefyraClient = GefyraClient(key: string, endpoint: string, rules: seq<Rule>)

  predicate PathHits(c: Condition, query: string, re: Matcher)
    requires c.MatchPath?
  {
    match c.kind
    case Prefix => StartsWith(query, c.path)
    case Regex => re(c.path, query)
    case Exact => c.path == query
  }

  predicate HeaderHits(c: Condition, name: string, value: string, re: Matcher)
    requires c.MatchHeader?
  {
    match c.kind
    case Prefix => c.name == name && StartsWith(value, c.value)
    case Regex => re(c.name, name) && re(c.value, value)
    case Exact => c.name == name && c.value == value
  }

  /** A path condition looks at the path, a header condition at some header. */
  predicate Hits(c: Condition, req: Request, re: Matcher) {
    match c
    case MatchPath(_, _) => PathHits(c, req.path, re)
    case MatchHeader(_, _, _) =>
      exists i :: 0 <= i < |req.headers| && HeaderHits(c, req.headers[i].0, req.headers[i].1, re)
  }

  predicate RuleHits(rule: Rule, req: Request, re: Matcher) {
    forall i :: 0 <= i < |rule| ==> Hits(rule[i], req, re)
  }

  predicate SomeRuleHits(rules: seq<Rule>, req: Request, re: Matcher) {
    exists i :: 0 <= i < |rules| && RuleHits(rules[i], req, re)
  }

  /** What a path condition matches. */
  lemma PathConditionIff(path: string, req: Request, re: Matcher)
    ensures Hits(MatchPath(path, Prefix), req, re) <==> exists rest :: req.path == path + rest
    ensures Hits(MatchPath(path, Exact), req, re) <==> req.path == path
    ensures Hits(MatchPath(path, Regex), req, re) <==> re(path, req.path)
  {
    StartsWithIff(req.path, path);
  }

  /** What a header condition matches: name and value of one and the same header. */
  lemma HeaderConditionIff(name: string, value: string, req: Request, re: Matcher)
    ensures Hits(MatchHeader(name, value, Prefix), req, re) <==> exists rest :: (name, value + rest) in req.headers
    ensures Hits(MatchHeader(name, value, Exact), req, re) <==> (name, value) in req.headers
    ensures Hits(MatchHeader(name, value, Regex), req, re) <==>
      exists h :: h in req.headers && re(name, h.0) && re(value, h.1)
  {
    var prefix := MatchHeader(name, value, Prefix);
    if i :| 0 <= i < |req.headers| && HeaderHits(prefix, req.headers[i].0, req.headers[i].1, re) {
      StartsWithIff(req.headers[i].1, value);
      var rest :| req.headers[i].1 == value + rest;
      assert req.headers[i] == (name, value + rest);
    }
    if rest :| (name, value + rest) in req.headers {
      StartsWithIff(value + rest, value);
      var i :| 0 <= i < |req.headers| && req.headers[i] == (name, value + rest);
      assert HeaderHits(prefix, req.headers[i].0, req.headers[i].1, re);
    }
    if (name, value) in req.headers {
      var i :| 0 <= i < |req.headers| && req.headers[i] == (name, value);
      assert HeaderHits(MatchHeader(name, value, Exact), req.headers[i].0, req.headers[i].1, re);
    }
    if h :| h in req.headers && re(name, h.0) && re(value, h.1) {
      var i :| 0 <= i < |req.headers| && req.headers[i] == h;
      assert HeaderHits(MatchHeader(name, value, Regex), req.headers[i].0, req.headers[i].1, re);
    }
  }

  // ----- The loops of the router -----

  method HeaderConditionIsHit(c: Condition, req: Request, re: Matcher) returns (hit: bool)
    requires c.MatchHeader?
    ensures hit == Hits(c, req, re)
  {
    hit := false;
    for i := 0 to |req.headers|
      invariant hit <==> exists j :: 0 <= j < i && HeaderHits(c, req.headers[j].0, req.headers[j].1, re)
    {
      hit := hit || HeaderHits(c, req.headers[i].0, req.headers[i].1, re);
    }
  }

  /** `MatchAndCondition::is_hit` */
  method AndIsHit(rule: Rule, req: Request, re: Matcher) returns (hit: bool)
    ensures hit == RuleHits(rule, req, re)
  {
    hit := true;
    for i := 0 to |rule|
      invariant hit == RuleHits(rule[..i], req, re)
    {
      var one := false;
      match rule[i] {
        case MatchPath(_, _) => one := PathHits(rule[i], req.path, re);
        case MatchHeader(_, _, _) => one := HeaderConditionIsHit(rule[i], req, re);
      }
      assert rule[..i + 1] == rule[..i] + [rule[i]];
      AndStep(rule[..i], rule[i], req, re);
      hit := hit && one;
    }
    assert rule[..|rule|] == rule;
  }

  lemma AndStep(done: Rule, c: Condition, req: Request, re: Matcher)
    ensures RuleHits(done + [c], req, re) == (RuleHits(done, req, re) && Hits(c, req, re))
  {
    assert (done + [c])[|done|] == c;
    assert forall i :: 0 <= i < |done| ==> (done + [c])[i] == done[i];
  }

  /** `MatchOrCondition::is_hit` */
  method OrIsHit(rules: seq<Rule>, req: Request, re: Matcher) returns (hit: bool)
    ensures hit == SomeRuleHits(rules, req, re)
  {
    hit := false;
    for i := 0 to |rules|
      invariant hit <==> exists j :: 0 <= j < i && RuleHits(rules[j], req, re)
    {
      var one := AndIsHit(rules[i], req, re);
      hit := hit || one;
    }
  }

  ghost function ClientOf(n: Named): GefyraClient { GefyraClient(n.name, n.bridge.endpoint, n.bridge.rules) }

  /** `GefyraClient::from_yaml`: one client for each item of the mapping, in its order. */
  method FromYaml(bridges: seq<Named>) returns (clients: seq<GefyraClient>)
    ensures |clients| == |bridges| && forall i :: 0 <= i < |bridges| ==> clients[i] == ClientOf(bridges[i])
  {
    clients := [];
    for i := 0 to |bridges|
      invariant |clients| == i && forall j :: 0 <= j < i ==> clients[j] == ClientOf(bridges[j])
    {
      clients := clients + [GefyraClient(bridges[i].name, bridges[i].bridge.endpoint, bridges[i].bridge.rules)];
    }
  }

  /** The first entry whose rules hit. */
  function FirstHit(bridges: seq<Named>, req: Request, re: Matcher): Upstream {
    if bridges == [] then ClusterUpstream
    else if SomeRuleHits(bridges[0].bridge.rules, req, re) then Peer(bridges[0].bridge.endpoint)
    else FirstHit(bridges[1..], req, re)
  }

  /** `upstream_peer` */
  method UpstreamPeer(clients: seq<GefyraClient>, ghost bridges: seq<Named>, req: Request, re: Matcher) returns (u: Upstream)
    requires |clients| == |bridges| && forall i :: 0 <= i < |bridges| ==> clients[i] == ClientOf(bridges[i])
    ensures u == FirstHit(bridges, req, re)
  {
    for i := 0 to |clients|
      invariant FirstHit(bridges, req, re) == FirstHit(bridges[i..], req, re)
    {
      assert bridges[i..][0] == bridges[i] && bridges[i..][1..] == bridges[i + 1..];
      var hit := OrIsHit(clients[i].rules, req, re);
      if hit {
        return Peer(clients[i].endpoint);
      }
    }
    return ClusterUpstream;
  }

  /** A Carrier2 proxy: loads its `bridges` and routes a request. */
  method Route(proxy: Proxy, req: Request, re: Matcher) returns (u: Upstream)
    ensures u == FirstHit(proxy.bridges, req, re)
  {
    var clients := FromYaml(proxy.bridges);
    u := UpstreamPeer(clients, proxy.bridges, req, re);
  }

  // ----- From GefyraBridges to a routed request -----

  /** `b` takes requests on port `p`, and takes this one. */
  predicate Takes(b: Bridge, ports: seq<nat>, p: nat, rm: Option<string>, req: Request, re: Matcher) {
    Entered(b, ports, p, rm) && SomeRuleHits(EntryOf(b, ports, p).bridge.rules, req, re)
  }

  /** The bridge's endpoint for port `p`; every bridge that takes requests on `p` has one. */
  function EndpointFor(b: Bridge, p: nat): string {
    if Str(p) in EndpointsOf(b) then EndpointsOf(b)[Str(p)] else ""
  }

  predicate TakenFirstBy(bridges: seq<Bridge>, i: int, ports: seq<nat>, p: nat, rm: Option<string>, req: Request, re: Matcher) {
    && 0 <= i < |bridges| && Takes(bridges[i], ports, p, rm, req, re)
    && forall j :: 0 <= j < i ==> !Takes(bridges[j], ports, p, rm, req, re)
  }

  function Routed(bridges: seq<Bridge>, ports: seq<nat>, p: nat, rm: Option<string>, req: Request, re: Matcher): Upstream {
    FirstHit(Expected(bridges, ports, p, rm), req, re)
  }

  lemma {:induction false} FirstHitAppend(xs: seq<Named>, ys: seq<Named>, req: Request, re: Matcher)
    ensures FirstHit(xs + ys, req, re) == if FirstHit(xs, req, re).Peer? then FirstHit(xs, req, re) else FirstHit(ys, req, re)
  {
    if xs == [] {
      assert xs + ys == ys;
    } else {
      assert (xs + ys)[0] == xs[0] && (xs + ys)[1..] == xs[1..] + ys;
      FirstHitAppend(xs[1..], ys, req, re);
    }
  }

  lemma SingleHit(b: Bridge, ports: seq<nat>, p: nat, rm: Option<string>, req: Request, re: Matcher)
    ensures FirstHit(Single(b, ports, p, rm), req, re)
      == if Takes(b, ports, p, rm, req, re) then Peer(EndpointFor(b, p)) else ClusterUpstream
  {
    if Entered(b, ports, p, rm) {
      MapsConverts(b, ports, p);
      assert [EntryOf(b, ports, p)][1..] == [];
    }
  }

  lemma RoutedStep(bridges: seq<Bridge>, ports: seq<nat>, p: nat, rm: Option<string>, req: Request, re: Matcher)
    requires bridges != []
    ensures Routed(bridges, ports, p, rm, req, re) ==
      if Takes(bridges[0], ports, p, rm, req, re) then Peer(EndpointFor(bridges[0], p))
      else Routed(bridges[1..], ports, p, rm, req, re)
  {
    assert [bridges[0]] + bridges[1..] == bridges;
    ExpectedAppend([bridges[0]], bridges[1..], ports, p, rm);
    ExpectedSingle(bridges[0], ports, p, rm);
    FirstHitAppend(Single(bridges[0], ports, p, rm), Expected(bridges[1..], ports, p, rm), req, re);
    SingleHit(bridges[0], ports, p, rm, req, re);
  }

  /**
    End to end: a request goes to the endpoint of the first bridge in list order that successfully maps the port
    and has a rule all of whose conditions hold; to the cluster exactly if there is no such bridge.
   */
  lemma {:induction false} RoutedToFirst(bridges: seq<Bridge>, ports: seq<nat>, p: nat, rm: Option<string>, req: Request, re: Matcher)
    ensures Routed(bridges, ports, p, rm, req, re).ClusterUpstream? <==>
      forall i :: 0 <= i < |bridges| ==> !Takes(bridges[i], ports, p, rm, req, re)
    ensures forall i :: TakenFirstBy(bridges, i, ports, p, rm, req, re) ==>
      Str(p) in EndpointsOf(bridges[i]) && Routed(bridges, ports, p, rm, req, re) == Peer(EndpointFor(bridges[i], p))
  {
    if bridges != [] {
      var rest := bridges[1..];
      RoutedStep(bridges, ports, p, rm, req, re);
      RoutedToFirst(rest, ports, p, rm, req, re);
      assert forall j :: 0 <= j < |rest| ==> rest[j] == bridges[j + 1];
      forall i | TakenFirstBy(bridges, i, ports, p, rm, req, re)
        ensures Str(p) in EndpointsOf(bridges[i])
        ensures Routed(bridges, ports, p, rm, req, re) == Peer(EndpointFor(bridges[i], p))
      {
        MapsConverts(bridges[i], ports, p);
        if i > 0 {
          assert TakenFirstBy(rest, i - 1, ports, p, rm, req, re);
        }
      }
      if !Takes(bridges[0], ports, p, rm, req, re) && Routed(rest, ports, p, rm, req, re).ClusterUpstream? {
        forall i | 0 <= i < |bridges|
          ensures !Takes(bridges[i], ports, p, rm, req, re)
        {
          if i > 0 {
            assert bridges[i] == rest[i - 1];
          }
        }
      }
    }
  }

  /** The rules of a bridge with one path prefix. */
  lemma OnePrefixRule(b: Bridge, path: string, req: Request, re: Matcher)
    requires b.rules == Some([Matching([MatchPath(path, Prefix)])])
    ensures RulesOf(b) == Some([[MatchPath(path, Prefix)]])
    ensures SomeRuleHits([[MatchPath(path, Prefix)]], req, re) <==> exists rest :: req.path == path + rest
  {
    var rule := [MatchPath(path, Prefix)];
    SingleRules(rule);
    PathConditionIff(path, req, re);
    assert RuleHits(rule, req, re) <==> Hits(rule[0], req, re);
    assert SomeRuleHits([rule], req, re) <==> RuleHits([rule][0], req, re);
  }

  /**
    The paths of a client: a bridge with one path prefix that maps the port takes exactly the requests for paths that
    begin with it, and sends those of them that no bridge before it takes to its own endpoint; where it is the only
    bridge, all other requests go to the cluster.
   */
  lemma PrefixRouted(bridges: seq<Bridge>, i: nat, path: string, ports: seq<nat>, p: nat, rm: Option<string>,
                     req: Request, re: Matcher)
    requires i < |bridges| && Entered(bridges[i], ports, p, rm)
    requires bridges[i].rules == Some([Matching([MatchPath(path, Prefix)])])
    requires forall j :: 0 <= j < i ==> !Takes(bridges[j], ports, p, rm, req, re)
    ensures Str(p) in EndpointsOf(bridges[i])
    ensures (exists rest :: req.path == path + rest) ==>
      Routed(bridges, ports, p, rm, req, re) == Peer(EndpointsOf(bridges[i])[Str(p)])
    ensures !(exists rest :: req.path == path + rest) ==>
      Routed(bridges, ports, p, rm, req, re) == Routed(bridges[i + 1..], ports, p, rm, req, re)
    ensures |bridges| == 1 && !(exists rest :: req.path == path + rest) ==>
      Routed(bridges, ports, p, rm, req, re) == ClusterUpstream
  {
    var b := bridges[i];
    MapsConverts(b, ports, p);
    OnePrefixRule(b, path, req, re);
    assert Takes(b, ports, p, rm, req, re) <==> exists rest :: req.path == path + rest;
    if Takes(b, ports, p, rm, req, re) {
      assert TakenFirstBy(bridges, i, ports, p, rm, req, re);
      RoutedToFirst(bridges, ports, p, rm, req, re);
    } else {
      NoneTaken(bridges, i + 1, ports, p, rm, req, re);
    }
  }

  lemma {:induction false} NoneTaken(bridges: seq<Bridge>, n: nat, ports: seq<nat>, p: nat, rm: Option<string>,
                                     req: Request, re: Matcher)
    requires n <= |bridges| && forall j :: 0 <= j < n ==> !Takes(bridges[j], ports, p, rm, req, re)
    ensures Routed(bridges, ports, p, rm, req, re) == Routed(bridges[n..], ports, p, rm, req, re)
  {
    if n > 0 {
      RoutedStep(bridges, ports, p, rm, req, re);
      NoneTaken(bridges[1..], n - 1, ports, p, rm, req, re);
      assert bridges[1..][n - 1..] == bridges[n..];
    } else {
      assert bridges[0..] == bridges;
    }
  }

  /** The same, through the real configuration: compile into proxies without bridges, then route at proxy `i`. */
  lemma CompiledRoutes(proxies: seq<Proxy>, bridges: seq<Bridge>, rm: Option<string>, result: seq<Proxy>, i: nat,
                       req: Request, re: Matcher)
    requires Unbridged(proxies) && DistinctBridges(bridges) && IsDeclared(proxies, bridges, rm, result)
    requires i < |proxies| && FindProxy(PortsOf(proxies), proxies[i].port) == Some(i)
    ensures FirstHit(result[i].bridges, req, re) == Routed(bridges, PortsOf(proxies), proxies[i].port, rm, req, re)
  {
    DeclaredFromEmpty(proxies, bridges, rm, result);
  }

  /**
    Non-interference: a bridge inserted at any position, or removed from it, changes the upstream only of requests
    that it takes itself; such a request goes to it unless a bridge further up the list takes it.
   */
  lemma NonInterference(xs: seq<Bridge>, b: Bridge, ys: seq<Bridge>, ports: seq<nat>, p: nat, rm: Option<string>,
                        req: Request, re: Matcher)
    ensures !Takes(b, ports, p, rm, req, re) ==>
      Routed(xs + [b] + ys, ports, p, rm, req, re) == Routed(xs + ys, ports, p, rm, req, re)
    ensures Takes(b, ports, p, rm, req, re) ==>
      Routed(xs + [b] + ys, ports, p, rm, req, re) ==
        if Routed(xs, ports, p, rm, req, re).Peer? then Routed(xs, ports, p, rm, req, re)
        else Peer(EndpointFor(b, p))
  {
    var ex, e, ey := Expected(xs, ports, p, rm), Single(b, ports, p, rm), Expected(ys, ports, p, rm);
    OthersUnaffected(xs, b, ys, ports, p, rm);
    FirstHitAppend(ex + e, ey, req, re);
    FirstHitAppend(ex, e, req, re);
    FirstHitAppend(ex, ey, req, re);
    SingleHit(b, ports, p, rm, req, re);
  }

  // ----- Rules given on the client's command line -----

  /** `get_match_rules`: all conditions of all rule sets in one list. */
  function Flatten(ruleSets: seq<seq<Condition>>): Rule {
    if ruleSets == [] then [] else ruleSets[0] + Flatten(ruleSets[1..])
  }

  /** `get_bridge_rules` */
  function BridgeRules(ruleSets: seq<seq<Condition>>): seq<RawRule> { [Matching(Flatten(ruleSets))] }

  lemma {:induction false} FlattenHits(ruleSets: seq<seq<Condition>>, req: Request, re: Matcher)
    ensures RuleHits(Flatten(ruleSets), req, re) <==> forall i :: 0 <= i < |ruleSets| ==> RuleHits(ruleSets[i], req, re)
  {
    if ruleSets != [] {
      var rest := ruleSets[1..];
      FlattenHits(rest, req, re);
      var all := Flatten(ruleSets);
      assert forall i :: 0 <= i < |ruleSets[0]| ==> all[i] == ruleSets[0][i];
      assert forall i :: 0 <= i < |Flatten(rest)| ==> all[|ruleSets[0]| + i] == Flatten(rest)[i];
      assert forall i :: 0 <= i < |rest| ==> rest[i] == ruleSets[i + 1];
      if RuleHits(all, req, re) {
        forall i | 0 <= i < |Flatten(rest)|
          ensures Hits(Flatten(rest)[i], req, re)
        {
          assert Hits(all[|ruleSets[0]| + i], req, re);
        }
        forall i | 0 <= i < |ruleSets|
          ensures RuleHits(ruleSets[i], req, re)
        {
          if i > 0 {
            assert RuleHits(rest[i - 1], req, re);
          }
        }
      }
      if forall i :: 0 <= i < |ruleSets| ==> RuleHits(ruleSets[i], req, re) {
        assert RuleHits(ruleSets[0], req, re);
        forall i | 0 <= i < |all|
          ensures Hits(all[i], req, re)
        {
          if i < |ruleSets[0]| {
            assert Hits(ruleSets[0][i], req, re);
          } else {
            assert Hits(Flatten(rest)[i - |ruleSets[0]|], req, re);
          }
        }
      }
    }
  }

  /**
    The rules of a client's command line form one AND group: the bridge takes a request exactly if every condition
    of every option holds.
   */
  lemma CommandLineRulesAreConjoined(b: Bridge, ruleSets: seq<seq<Condition>>, req: Request, re: Matcher)
    requires b.rules == Some(BridgeRules(ruleSets))
    ensures RulesOf(b).Some?
    ensures SomeRuleHits(RulesOf(b).value, req, re) <==>
      forall i, j :: 0 <= i < |ruleSets| && 0 <= j < |ruleSets[i]| ==> Hits(ruleSets[i][j], req, re)
  {
    var raw := BridgeRules(ruleSets);
    assert raw[1..] == [] && MatchingRules(raw[1..]) == Some([]);
    assert [Flatten(ruleSets)] + [] == [Flatten(ruleSets)];
    assert RulesOf(b) == Some([Flatten(ruleSets)]);
    FlattenHits(ruleSets, req, re);
    if RuleHits(Flatten(ruleSets), req, re) {
      assert RuleHits(RulesOf(b).value[0], req, re);
    }
  }
}

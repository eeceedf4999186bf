/**
  The string encodings shared by the route ConfigMap, the proxy Services and the bridge objects,
  and the proofs that what is written by one part of the operator is read back by the others.
 */
module Encoding {
  import opened Wrappers
  import opened Text

  /** Default of GEFYRA_NAMESPACE. */
  const NAMESPACE := "gefyra"
  const SERVICE_PREFIX := "gefyra-stowaway-proxy-"

  /** One proxy route: `port` of the client container `ip` of client `peer`. */
  datatype Row = Row(peer: string, suffix: string, ip: string, port: nat)

  /** The labels of a proxy Service that the operator selects by. */
  datatype Service = Service(client: string, destination: string)

  function Dest(ip: string, port: nat): string { ip + ":" + Str(port) }

  function Label(ip: string, port: nat): string { ip + "_" + Str(port) }

  function RouteKey(row: Row): string { row.peer + "-" + row.suffix }

  function RouteValueOf(dest: string, proxyPort: nat): string { dest + "," + Str(proxyPort) }

  function RouteValue(row: Row, proxyPort: nat): string { RouteValueOf(Dest(row.ip, row.port), proxyPort) }

  function ServiceOf(row: Row): Service { Service(row.peer, Label(row.ip, row.port)) }

  function ServiceName(proxyPort: nat): string { SERVICE_PREFIX + Str(proxyPort) }

  function Host(serviceName: string): string { serviceName + "." + NAMESPACE + ".svc.cluster.local" }

  function Url(proxyPort: nat): string { Host(ServiceName(proxyPort)) + ":" + Str(proxyPort) }

  /** Addresses that the collector can take apart again; IPv6 addresses are not among them. */
  predicate CleanIp(ip: string) { ':' !in ip && ',' !in ip }

  /** `int(v.split(",")[1])`; 0 stands for values this operator never writes. */
  function ProxyPortOf(value: string): nat {
    var parts := Split(value, ',');
    if |parts| > 1 then
      match ParseNat(parts[1])
      case Some(n) => n
      case None => 0
    else 0
  }

  /** The proxy ports stored in a ConfigMap. */
  function TakenPorts(routes: map<string, string>): set<nat> {
    set k | k in routes :: ProxyPortOf(routes[k])
  }

  /** `value.split(",")[1]` as text. */
  function ProxyPortText(value: string): string {
    var parts := Split(value, ',');
    if |parts| > 1 then parts[1] else "0"
  }

  /** `v.split(",")[0]` */
  function DestOf(value: string): string { Split(value, ',')[0] }

  /** `value.split(",")[0].split(":")[0]` */
  function IpOf(value: string): string { Split(DestOf(value), ':')[0] }

  /** `key.rsplit("-", 1)[0]` */
  function PeerOf(key: string): string {
    match CutLast(key, '-')
    case Some(p) => p.0
    case None => key
  }

  /** `x.split(":")[1]`; raises on a text without a colon. */
  function PortPart(endpoint: string): Option<string> {
    var parts := Split(endpoint, ':');
    if |parts| > 1 then Some(parts[1]) else None
  }

  lemma StrHasNo(n: nat, c: char)
    requires !IsDigit(c)
    ensures c !in Str(n)
  {
  }

  lemma ValueDecodes(dest: string, p: nat)
    requires ',' !in dest
    ensures DestOf(RouteValueOf(dest, p)) == dest
    ensures ProxyPortOf(RouteValueOf(dest, p)) == p
    ensures ProxyPortText(RouteValueOf(dest, p)) == Str(p)
  {
    StrHasNo(p, ',');
    SplitAt(dest, ',', Str(p));
    assert dest + "," + Str(p) == dest + [','] + Str(p);
    SplitWhole(Str(p), ',');
    ParseStr(p);
  }

  lemma DestClean(ip: string, port: nat)
    requires ',' !in ip
    ensures ',' !in Dest(ip, port)
  {
    StrHasNo(port, ',');
  }

  lemma RouteDecodes(row: Row, p: nat)
    requires CleanIp(row.ip)
    ensures DestOf(RouteValue(row, p)) == Dest(row.ip, row.port)
    ensures IpOf(RouteValue(row, p)) == row.ip
    ensures ProxyPortOf(RouteValue(row, p)) == p
    ensures ProxyPortText(RouteValue(row, p)) == Str(p)
  {
    DestClean(row.ip, row.port);
    ValueDecodes(Dest(row.ip, row.port), p);
    IpRoundTrip(row.ip, row.port, p);
  }

  /** The collector reads back exactly the address that was stored if and only if it has no separator in it. */
  lemma IpRoundTrip(ip: string, port: nat, p: nat)
    ensures IpOf(RouteValueOf(Dest(ip, port), p)) == ip <==> CleanIp(ip)
  {
    var value := RouteValueOf(Dest(ip, port), p);
    if CleanIp(ip) {
      DestClean(ip, port);
      ValueDecodes(Dest(ip, port), p);
      SplitAt(ip, ':', Str(port));
      assert ip + ":" + Str(port) == ip + [':'] + Str(port);
    } else {
      PartHasNoSeparator(value, ',');
      PartHasNoSeparator(DestOf(value), ':');
      HeadPrefix(DestOf(value), ':');
    }
  }

  lemma {:induction false} PartHasNoSeparator(s: string, c: char)
    ensures c !in Split(s, c)[0]
  {
    if s != [] && s[0] != c {
      PartHasNoSeparator(s[1..], c);
    }
  }

  lemma {:induction false} HeadPrefix(s: string, c: char)
    ensures Split(s, c)[0] <= s
  {
    if s != [] && s[0] != c {
      HeadPrefix(s[1..], c);
      assert s == [s[0]] + s[1..];
    }
  }

  lemma PeerDecodes(row: Row)
    requires '-' !in row.suffix
    ensures PeerOf(RouteKey(row)) == row.peer
  {
    CutLastAt(row.peer, '-', row.suffix);
    assert row.peer + "-" + row.suffix == row.peer + ['-'] + row.suffix;
  }

  lemma DestInjective(ip: string, port: nat, ip': string, port': nat)
    requires Dest(ip, port) == Dest(ip', port')
    ensures ip == ip' && port == port'
  {
    StrHasNo(port, ':');
    StrHasNo(port', ':');
    CutLastAt(ip, ':', Str(port));
    CutLastAt(ip', ':', Str(port'));
    assert Dest(ip, port) == ip + [':'] + Str(port);
    assert Dest(ip', port') == ip' + [':'] + Str(port');
    StrInjective(port, port');
  }

  lemma LabelInjective(ip: string, port: nat, ip': string, port': nat)
    requires Label(ip, port) == Label(ip', port')
    ensures ip == ip' && port == port'
  {
    StrHasNo(port, '_');
    StrHasNo(port', '_');
    CutLastAt(ip, '_', Str(port));
    CutLastAt(ip', '_', Str(port'));
    assert Label(ip, port) == ip + ['_'] + Str(port);
    assert Label(ip', port') == ip' + ['_'] + Str(port');
    StrInjective(port, port');
  }

  lemma ServiceNameInjective(p: nat, q: nat)
    requires ServiceName(p) == ServiceName(q)
    ensures p == q
  {
    assert Str(p) == ServiceName(p)[|SERVICE_PREFIX|..];
    assert Str(q) == ServiceName(q)[|SERVICE_PREFIX|..];
    StrInjective(p, q);
  }

  /** `name.rsplit("-", 1)[1]` recovers the port from a proxy Service's name. */
  lemma ServicePortDecodes(p: nat)
    ensures CutLast(ServiceName(p), '-') == Some((SERVICE_PREFIX[..|SERVICE_PREFIX| - 1], Str(p)))
  {
    StrHasNo(p, '-');
    var a := SERVICE_PREFIX[..|SERVICE_PREFIX| - 1];
    CutLastAt(a, '-', Str(p));
    assert ServiceName(p) == a + ['-'] + Str(p);
  }

  /** The port in the name of a proxy Service. */
  function ServicePortOf(name: string): nat {
    match CutLast(name, '-')
    case Some(parts) =>
      (match ParseNat(parts.1)
       case Some(n) => n
       case None => 0)
    case None => 0
  }

  lemma ServicePortOfName(p: nat)
    ensures ServicePortOf(ServiceName(p)) == p
  {
    ServicePortDecodes(p);
    ParseStr(p);
  }

  lemma HostHasNoColon(p: nat)
    ensures ':' !in Host(ServiceName(p))
  {
    StrHasNo(p, ':');
    assert ':' !in SERVICE_PREFIX;
    assert ':' !in "." + NAMESPACE + ".svc.cluster.local";
    assert Host(ServiceName(p)) == SERVICE_PREFIX + Str(p) + ("." + NAMESPACE + ".svc.cluster.local");
  }

  /** Both readings of an endpoint, `url.split(":", 1)` and `url.split(":")[1]`, give back the proxy port. */
  lemma UrlDecodes(p: nat)
    ensures CutFirst(Url(p), ':') == Some((Host(ServiceName(p)), Str(p)))
    ensures PortPart(Url(p)) == Some(Str(p))
  {
    HostHasNoColon(p);
    StrHasNo(p, ':');
    CutFirstAt(Host(ServiceName(p)), ':', Str(p));
    SplitAt(Host(ServiceName(p)), ':', Str(p));
    SplitWhole(Str(p), ':');
    assert Url(p) == Host(ServiceName(p)) + [':'] + Str(p);
  }

  lemma UrlInjective(p: nat, q: nat)
    requires Url(p) == Url(q)
    ensures p == q
  {
    UrlDecodes(p);
    UrlDecodes(q);
    StrInjective(p, q);
  }

  /** The texts of a route. */
  lemma RouteTexts(row: Row, p: nat)
    requires row.peer == "my-client" && row.suffix == "abcdefghij" && row.ip == "172.17.0.2"
    ensures RouteKey(row) == "my-client-abcdefghij"
    ensures RouteValue(row, p) == "172.17.0.2:" + Str(row.port) + "," + Str(p)
    ensures ServiceOf(row) == Service("my-client", "172.17.0.2_" + Str(row.port))
  {
  }

  /** The texts of its Service and of the URL under which it is reached. */
  lemma ServiceTexts(p: nat)
    ensures ServiceName(p) == "gefyra-stowaway-proxy-" + Str(p)
    ensures Url(p) == "gefyra-stowaway-proxy-" + Str(p) + ".gefyra.svc.cluster.local:" + Str(p)
  {
    assert "." + NAMESPACE + ".svc.cluster.local" == ".gefyra.svc.cluster.local";
    assert Host(ServiceName(p)) == "gefyra-stowaway-proxy-" + Str(p) + ".gefyra.svc.cluster.local";
  }
}

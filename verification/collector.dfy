/** What the periodic collector of stale proxy routes decides about one route. */
module Collector {
  import opened Wrappers
  import opened Text
  import opened Encoding
  import opened Table
  import opened Objects

  /** `Raises`: a bridge of the same client and address has no `clusterEndpoint` yet (KeyError). */
  datatype Verdict = Kept | Debris | Raises

  predicate Addresses(b: Bridge, peer: string, ip: string) { b.client == peer && b.destinationIP == ip }

  predicate NamesPort(b: Bridge, portText: string) {
    b.endpoints.Some? && exists e | e in b.endpoints.value.Values :: PortPart(e) == Some(portText)
  }

  function Judge(bridges: seq<Bridge>, peer: string, ip: string, portText: string): Verdict {
    if bridges == [] then Debris
    else if !Addresses(bridges[0], peer, ip) then Judge(bridges[1..], peer, ip, portText)
    else if bridges[0].endpoints.None? then Raises
    else if NamesPort(bridges[0], portText) then Kept
    else Judge(bridges[1..], peer, ip, portText)
  }

  function JudgeRow(bridges: seq<Bridge>, row: Row, p: nat): Verdict {
    Judge(bridges, row.peer, row.ip, Str(p))
  }

  /** `b` backs the route: same client, same address, and one of its endpoints ends in the proxy port. */
  predicate Backs(b: Bridge, row: Row, p: nat) { Addresses(b, row.peer, row.ip) && NamesPort(b, Str(p)) }

  predicate Blocks(b: Bridge, row: Row) { Addresses(b, row.peer, row.ip) && b.endpoints.None? }

  function Collected(t: Table, bridges: seq<Bridge>): Table {
    map p | p in t && JudgeRow(bridges, t[p], p).Kept? :: t[p]
  }

  ghost predicate CollectRaises(t: Table, bridges: seq<Bridge>) {
    exists p :: p in t && JudgeRow(bridges, t[p], p).Raises?
  }

  /** A route is kept exactly if some bridge backs it and no bridge without endpoints comes before. */
  lemma {:induction false} KeptIff(bridges: seq<Bridge>, row: Row, p: nat)
    ensures JudgeRow(bridges, row, p).Kept? <==> First(bridges, x => Backs(x, row, p), x => Blocks(x, row))
    ensures JudgeRow(bridges, row, p).Raises? <==> First(bridges, x => Blocks(x, row), x => Backs(x, row, p))
  {
    if bridges != [] {
      var rest := bridges[1..];
      KeptIff(rest, row, p);
      var b := bridges[0];
      if Backs(b, row, p) || Blocks(b, row) {
        assert bridges[0] == b;
      } else {
        FirstShifts(bridges, x => Backs(x, row, p), x => Blocks(x, row));
        FirstShifts(bridges, x => Blocks(x, row), x => Backs(x, row, p));
      }
    }
  }

  /** Some bridge satisfies `yes` before any satisfies `no`. */
  ghost predicate First(bridges: seq<Bridge>, yes: Bridge -> bool, no: Bridge -> bool) {
    exists i :: 0 <= i < |bridges| && yes(bridges[i]) && forall j :: 0 <= j < i ==> !no(bridges[j])
  }

  lemma FirstShifts(bridges: seq<Bridge>, yes: Bridge -> bool, no: Bridge -> bool)
    requires bridges != [] && !yes(bridges[0]) && !no(bridges[0])
    ensures First(bridges, yes, no) <==> First(bridges[1..], yes, no)
  {
    var rest := bridges[1..];
    if First(rest, yes, no) {
      var i :| 0 <= i < |rest| && yes(rest[i]) && forall j :: 0 <= j < i ==> !no(rest[j]);
      assert yes(bridges[i + 1]);
      assert forall j :: 0 < j < i + 1 ==> bridges[j] == rest[j - 1];
    }
    if First(bridges, yes, no) {
      var i :| 0 <= i < |bridges| && yes(bridges[i]) && forall j :: 0 <= j < i ==> !no(bridges[j]);
      assert yes(rest[i - 1]);
      assert forall j :: 0 <= j < i - 1 ==> rest[j] == bridges[j + 1];
    }
  }

  /** Once every bridge has its endpoints the collector never raises and keeps exactly the backed routes. */
  lemma KeptExactlyBacked(bridges: seq<Bridge>, t: Table, p: nat)
    requires p in t
    requires forall i :: 0 <= i < |bridges| ==> bridges[i].endpoints.Some?
    ensures !CollectRaises(t, bridges)
    ensures p in Collected(t, bridges) <==> exists i :: 0 <= i < |bridges| && Backs(bridges[i], t[p], p)
  {
    forall q | q in t
      ensures !JudgeRow(bridges, t[q], q).Raises?
    {
      KeptIff(bridges, t[q], q);
    }
    KeptIff(bridges, t[p], p);
    if i :| 0 <= i < |bridges| && Backs(bridges[i], t[p], p) {
      assert forall j :: 0 <= j < i ==> !Blocks(bridges[j], t[p]);
    }
  }

  /** The same on the fields of the bridges and the texts of their endpoints. */
  lemma KeptByFields(bridges: seq<Bridge>, row: Row, p: nat)
    requires forall i :: 0 <= i < |bridges| ==> bridges[i].endpoints.Some?
    ensures JudgeRow(bridges, row, p).Kept? <==>
      exists i, key :: 0 <= i < |bridges| && key in bridges[i].endpoints.value
        && bridges[i].client == row.peer && bridges[i].destinationIP == row.ip
        && |Split(bridges[i].endpoints.value[key], ':')| > 1 && Split(bridges[i].endpoints.value[key], ':')[1] == Str(p)
  {
    KeptIff(bridges, row, p);
    forall i | 0 <= i < |bridges|
      ensures NamesPort(bridges[i], Str(p)) <==>
        exists key :: key in bridges[i].endpoints.value && PortPart(bridges[i].endpoints.value[key]) == Some(Str(p))
    {
      NamesByKey(bridges[i], Str(p));
    }
    if i :| 0 <= i < |bridges| && Backs(bridges[i], row, p) {
      assert forall j :: 0 <= j < i ==> !Blocks(bridges[j], row);
    }
  }

  lemma NamesByKey(b: Bridge, portText: string)
    requires b.endpoints.Some?
    ensures NamesPort(b, portText) <==>
      exists key :: key in b.endpoints.value && PortPart(b.endpoints.value[key]) == Some(portText)
  {
    if e :| e in b.endpoints.value.Values && PortPart(e) == Some(portText) {
      var key :| key in b.endpoints.value && b.endpoints.value[key] == e;
      assert PortPart(b.endpoints.value[key]) == Some(portText);
    }
    if key :| key in b.endpoints.value && PortPart(b.endpoints.value[key]) == Some(portText) {
      assert b.endpoints.value[key] in b.endpoints.value.Values;
    }
  }

  /** A second collection with the same bridges finds nothing to do. */
  lemma CollectTwice(t: Table, bridges: seq<Bridge>)
    ensures Collected(Collected(t, bridges), bridges) == Collected(t, bridges)
    ensures !CollectRaises(Collected(t, bridges), bridges)
  {
  }

  /** The window between adding a route and patching the bridge: the collector takes such a route for debris. */
  lemma RouteCollectedBeforePatch(t: Table, bridges: seq<Bridge>, p: nat)
    requires p in t
    requires forall i :: 0 <= i < |bridges| && Addresses(bridges[i], t[p].peer, t[p].ip) ==>
        bridges[i].endpoints.Some? && forall e :: e in bridges[i].endpoints.value.Values ==> PortPart(e) != Some(Str(p))
    ensures JudgeRow(bridges, t[p], p).Debris? && p !in Collected(t, bridges)
  {
    KeptIff(bridges, t[p], p);
  }

  /** The URL that setup stores in the bridge is recognised by the collector as this very proxy port. */
  lemma UrlBacks(b: Bridge, row: Row, p: nat, key: string)
    requires b.client == row.peer && b.destinationIP == row.ip
    requires key in EndpointsOf(b) && EndpointsOf(b)[key] == Url(p)
    ensures Backs(b, row, p)
  {
    UrlDecodes(p);
    assert Url(p) in b.endpoints.value.Values;
  }

  lemma CollectKeepsOk(t: Table, bridges: seq<Bridge>)
    requires TableOk(t)
    ensures TableOk(Collected(t, bridges))
  {
  }
}

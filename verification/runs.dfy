/** Whole runs of guarded adds, removes and collections, in any order and number. */
module Runs {
  import opened Encoding
  import opened Table
  import opened Objects
  import opened Collector

  /** `Add` is `add_destination` behind `destination_exists`, as setup calls it. */
  datatype Op =
    | Add(row: Row)
    | Remove(ip: string, port: nat)
    | Collect(bridges: seq<Bridge>)

  ghost function Apply(t: Table, op: Op): Table {
    match op
    case Add(row) => if HasPeerDest(t, row.peer, row.ip, row.port) then t else AddRow(t, row)
    case Remove(ip, port) => RemoveDest(t, ip, port)
    case Collect(bridges) => if CollectRaises(t, bridges) then t else Collected(t, bridges)
  }

  ghost function Run(t: Table, ops: seq<Op>): Table
    decreases |ops|
  {
    if ops == [] then t else Run(Apply(t, ops[0]), ops[1..])
  }

  /** Every address belongs to one client. */
  ghost predicate Owned(t: Table, owner: string -> string) {
    forall p :: p in t ==> t[p].peer == owner(t[p].ip)
  }

  /** What clients and the random generator provide at each step of a run. */
  ghost predicate Admissible(t: Table, ops: seq<Op>, owner: string -> string)
    decreases |ops|
  {
    ops == [] ||
    (&& (ops[0].Add? ==> ops[0].row.peer == owner(ops[0].row.ip) && CleanIp(ops[0].row.ip) && Fresh(t, ops[0].row))
     && Admissible(Apply(t, ops[0]), ops[1..], owner))
  }

  /** With owned addresses the guard of setup, which asks for one client, excludes every client. */
  lemma GuardIsExact(t: Table, peer: string, ip: string, port: nat, owner: string -> string)
    requires Owned(t, owner) && peer == owner(ip)
    ensures HasPeerDest(t, peer, ip, port) <==> HasDest(t, ip, port)
  {
    if p :| p in t && Serves(t[p], ip, port) {
      assert ServesPeer(t[p], peer, ip, port);
    }
    if p :| p in t && ServesPeer(t[p], peer, ip, port) {
      assert Serves(t[p], ip, port);
    }
  }

  lemma ApplyKeepsOk(t: Table, op: Op, owner: string -> string)
    requires TableOk(t) && Owned(t, owner) && Admissible(t, [op], owner)
    ensures TableOk(Apply(t, op)) && Owned(Apply(t, op), owner)
  {
    match op
    case Add(row) =>
      GuardIsExact(t, row.peer, row.ip, row.port, owner);
      if !HasDest(t, row.ip, row.port) {
        AddKeepsOk(t, row);
      }
    case Remove(ip, port) => RemoveKeepsOk(t, ip, port);
    case Collect(bridges) => CollectKeepsOk(t, bridges);
  }

  /** Distinct ports, keys and destinations, and ports within 10000..59999, survive every run. */
  lemma {:induction false} RunKeepsOk(t: Table, ops: seq<Op>, owner: string -> string)
    requires TableOk(t) && Owned(t, owner) && Admissible(t, ops, owner)
    ensures TableOk(Run(t, ops)) && Owned(Run(t, ops), owner)
    decreases |ops|
  {
    if ops != [] {
      assert Admissible(t, [ops[0]], owner) by {
        assert Admissible(Apply(t, ops[0]), [], owner);
        assert [ops[0]][1..] == [];
      }
      ApplyKeepsOk(t, ops[0], owner);
      RunKeepsOk(Apply(t, ops[0]), ops[1..], owner);
    }
  }

  /** The largest number of routes alive at the same time during the run. */
  ghost function Peak(t: Table, ops: seq<Op>): nat
    decreases |ops|
  {
    if ops == [] then |t| else Max(|t|, Peak(Apply(t, ops[0]), ops[1..]))
  }

  function Max(a: nat, b: nat): nat { if a < b then b else a }

  ghost predicate Below(t: Table, m: nat) {
    forall p :: p in t ==> p < FIRST_PORT + m
  }

  /** From an empty table no port ever lies beyond the peak number of simultaneous routes. */
  lemma PortsBelowPeak(ops: seq<Op>)
    ensures Below(Run(map[], ops), Peak(map[], ops))
  {
    PortsBelowPeakFrom(map[], ops, 0);
  }

  lemma {:induction false} PortsBelowPeakFrom(t: Table, ops: seq<Op>, m: nat)
    requires Below(t, m)
    ensures Below(Run(t, ops), Max(m, Peak(t, ops)))
    decreases |ops|
  {
    if ops != [] {
      var t' := Apply(t, ops[0]);
      ApplyBelow(t, ops[0], m);
      PortsBelowPeakFrom(t', ops[1..], Max(m, |t'|));
      PeakStart(t', ops[1..]);
    }
  }

  lemma PeakStart(t: Table, ops: seq<Op>)
    ensures |t| <= Peak(t, ops)
  {
  }

  lemma ApplyBelow(t: Table, op: Op, m: nat)
    requires Below(t, m)
    ensures Below(Apply(t, op), Max(m, |Apply(t, op)|))
  {
    if op.Add? && !HasPeerDest(t, op.row.peer, op.row.ip, op.row.port) && FreePort(t.Keys).Some? {
      FirstFitBound(t.Keys);
      var p := FreePort(t.Keys).value;
      assert t[p := op.row].Keys == t.Keys + {p};
      assert |t[p := op.row].Keys| == |t.Keys| + 1;
    }
  }

  /** Nothing in the run removes the route on port `p`: no removal of its destination, no collection takes it for debris. */
  ghost predicate LeavesAlone(ops: seq<Op>, row: Row, p: nat) {
    forall i :: 0 <= i < |ops| ==>
      match ops[i]
      case Add(_) => true
      case Remove(ip, port) => !Serves(row, ip, port)
      case Collect(bridges) => !JudgeRow(bridges, row, p).Debris?
  }

  /**
    A destination keeps the proxy port, hence the URL, that it was given until it is removed or collected,
    whatever other routes come and go.
   */
  lemma {:induction false} RouteStays(t: Table, ops: seq<Op>, p: nat)
    requires p in t && LeavesAlone(ops, t[p], p)
    ensures p in Run(t, ops) && Run(t, ops)[p] == t[p]
    decreases |ops|
  {
    if ops != [] {
      var t' := Apply(t, ops[0]);
      assert p in t' && t'[p] == t[p];
      forall i | 0 <= i < |ops[1..]|
        ensures ops[1..][i] == ops[i + 1]
      {
      }
      RouteStays(t', ops[1..], p);
    }
  }

  /** And once removed it is gone until it is added again. */
  lemma {:induction false} RemovedStaysGone(t: Table, ops: seq<Op>, ip: string, port: nat)
    requires forall i :: 0 <= i < |ops| && ops[i].Add? ==> !Serves(ops[i].row, ip, port)
    ensures !HasDest(Run(RemoveDest(t, ip, port), ops), ip, port)
  {
    StaysGone(RemoveDest(t, ip, port), ops, ip, port);
  }

  lemma {:induction false} StaysGone(t: Table, ops: seq<Op>, ip: string, port: nat)
    requires !HasDest(t, ip, port)
    requires forall i :: 0 <= i < |ops| && ops[i].Add? ==> !Serves(ops[i].row, ip, port)
    ensures !HasDest(Run(t, ops), ip, port)
    decreases |ops|
  {
    if ops != [] {
      forall i | 0 <= i < |ops[1..]|
        ensures ops[1..][i] == ops[i + 1]
      {
      }
      StaysGone(Apply(t, ops[0]), ops[1..], ip, port);
    }
  }
}

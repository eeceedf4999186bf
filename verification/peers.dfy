/** The Stowaway's peer ConfigMap: admission of a client's subnet, registration and removal of peers. */
module Peers {
  import opened Wrappers
  import opened Text

  const PEERS := "PEERS"
  const ALLOWED := "SERVER_ALLOWEDIPS_PEER_"

  predicate IsAlnum(c: char) { '0' <= c <= '9' || 'a' <= c <= 'z' || 'A' <= c <= 'Z' }

  /** `_translate_peer_name` */
  function Translate(peer: string): (name: string)
    ensures forall i :: 0 <= i < |name| ==> IsAlnum(name[i])
    ensures |peer| <= |name|
  {
    if peer == "" then ""
    else (if IsAlnum(peer[0]) then [peer[0]] else "000") + Translate(peer[1..])
  }

  /** The characters that stay are the ten digits and twice 26 letters: `string.printable[:62]`. */
  lemma AlnumBounds()
    ensures IsAlnum('0') && IsAlnum('9') && IsAlnum('a') && IsAlnum('z') && IsAlnum('A') && IsAlnum('Z')
    ensures !IsAlnum('/') && !IsAlnum(':') && !IsAlnum('`') && !IsAlnum('{') && !IsAlnum('@') && !IsAlnum('[')
  {
  }

  lemma {:induction false} TranslateKeepsAlnum(peer: string)
    ensures Translate(peer) == peer <==> forall i :: 0 <= i < |peer| ==> IsAlnum(peer[i])
  {
    if peer != "" {
      TranslateKeepsAlnum(peer[1..]);
      if IsAlnum(peer[0]) {
        assert [peer[0]] + peer[1..] == peer;
        assert Translate(peer)[1..] == Translate(peer[1..]);
      } else {
        assert |Translate(peer)| > |peer|;
      }
    }
  }

  lemma {:induction false} TranslateAppend(a: string, b: string)
    ensures Translate(a + b) == Translate(a) + Translate(b)
  {
    if a == "" {
      assert a + b == b;
    } else {
      assert (a + b)[1..] == a[1..] + b;
      TranslateAppend(a[1..], b);
    }
  }

  /** Two clients whose names differ in a separator only, or in three zeros for it, are one peer. */
  lemma NamesCollide(a: string, c: char, d: char, b: string)
    requires !IsAlnum(c) && !IsAlnum(d)
    ensures Translate(a + [c] + b) == Translate(a + [d] + b) == Translate(a + "000" + b)
  {
    TranslateMiddle(a, [c], b);
    TranslateMiddle(a, [d], b);
    TranslateMiddle(a, "000", b);
  }

  lemma TranslateMiddle(a: string, m: string, b: string)
    requires m == "000" || (|m| == 1 && !IsAlnum(m[0]))
    ensures Translate(a + m + b) == Translate(a) + "000" + Translate(b)
  {
    TranslateAppend(a + m, b);
    TranslateAppend(a, m);
    TranslateToZeros(m);
  }

  lemma TranslateToZeros(m: string)
    requires m == "000" || (|m| == 1 && !IsAlnum(m[0]))
    ensures Translate(m) == "000"
  {
    TranslateKeepsAlnum("000");
    if |m| == 1 {
      assert m[1..] == "";
    }
  }

  /** `",".join(names)` */
  function Join(names: seq<string>): string {
    if names == [] then ""
    else if |names| == 1 then names[0]
    else names[0] + "," + Join(names[1..])
  }

  lemma {:induction false} SplitJoin(names: seq<string>)
    requires names != [] && forall i :: 0 <= i < |names| ==> ',' !in names[i]
    ensures Split(Join(names), ',') == names
  {
    if |names| == 1 {
      SplitWhole(names[0], ',');
    } else {
      SplitJoin(names[1..]);
      SplitAt(names[0], ',', Join(names[1..]));
      assert names[0] + "," + Join(names[1..]) == names[0] + [','] + Join(names[1..]);
    }
  }

  lemma {:induction false} SplitHasNoSeparator(s: string, c: char)
    ensures forall i :: 0 <= i < |Split(s, c)| ==> c !in Split(s, c)[i]
  {
    if s != "" {
      SplitHasNoSeparator(s[1..], c);
    }
  }

  /** `subnet.split("/", 1)[0]` */
  function NetAddress(subnet: string): string {
    match CutFirst(subnet, '/')
    case Some(p) => p.0
    case None => subnet
  }

  /** The subnet is of this address, with a prefix length or without. */
  ghost predicate OfAddress(subnet: string, a: string) {
    '/' !in a && (subnet == a || exists m :: subnet == a + "/" + m)
  }

  lemma NetAddressIff(subnet: string, a: string)
    ensures NetAddress(subnet) == a <==> OfAddress(subnet, a)
  {
    CutFirstAbsent(subnet, '/');
    if NetAddress(subnet) == a && '/' in subnet {
      CutFirstJoins(subnet, '/');
      assert subnet == a + "/" + CutFirst(subnet, '/').value.1;
    }
    if m :| '/' !in a && subnet == a + "/" + m {
      CutFirstAt(a, '/', m);
      assert subnet == a + ['/'] + m;
    }
  }

  // ----- `WIREGUARD_CIDR_PATTERN` -----

  predicate Digits(s: string, n: nat) { 1 <= |s| <= n && forall i :: 0 <= i < |s| ==> IsDigit(s[i]) }

  predicate IsCidr(subnet: string) {
    var halves := Split(subnet, '/');
    var octets := Split(halves[0], '.');
    && |halves| == 2 && |octets| == 4
    && Digits(halves[1], 3) && forall i :: 0 <= i < 4 ==> Digits(octets[i], 3)
  }

  /** One to three decimal digits. */
  ghost predicate Octet(s: string) { 1 <= |s| <= 3 && forall i :: 0 <= i < |s| ==> '0' <= s[i] <= '9' }

  /** Four of them joined by dots, and one behind a slash. */
  ghost predicate CidrOf(subnet: string, a: string, b: string, c: string, d: string, m: string) {
    && Octet(a) && Octet(b) && Octet(c) && Octet(d) && Octet(m)
    && subnet == Dotted(a, b, c, d) + ['/'] + m
  }

  ghost function Dotted(a: string, b: string, c: string, d: string): string {
    a + ['.'] + (b + ['.'] + (c + ['.'] + d))
  }

  lemma OctetHasNo(s: string, c: char)
    requires Octet(s) && !IsDigit(c)
    ensures c !in s
  {
  }

  lemma SplitOctet(s: string, rest: string)
    requires Octet(s)
    ensures Split(s + ['.'] + rest, '.') == [s] + Split(rest, '.')
    ensures '/' !in rest ==> '/' !in s + ['.'] + rest
  {
    OctetHasNo(s, '.');
    OctetHasNo(s, '/');
    SplitAt(s, '.', rest);
  }

  lemma SplitDotted(a: string, b: string, c: string, d: string)
    requires Octet(a) && Octet(b) && Octet(c) && Octet(d)
    ensures Split(Dotted(a, b, c, d), '.') == [a, b, c, d] && '/' !in Dotted(a, b, c, d)
  {
    OctetHasNo(d, '.');
    OctetHasNo(d, '/');
    SplitWhole(d, '.');
    SplitOctet(c, d);
    SplitOctet(b, c + ['.'] + d);
    SplitOctet(a, b + ['.'] + (c + ['.'] + d));
  }

  /** A text with a separator is its first part, the separator, and the text of the other parts. */
  lemma SplitHead(s: string, c: char) returns (rest: string)
    requires |Split(s, c)| > 1
    ensures Split(rest, c) == Split(s, c)[1..] && s == Split(s, c)[0] + [c] + rest
  {
    CutFirstAbsent(s, c);
    CutFirstJoins(s, c);
    var (a, b) := CutFirst(s, c).value;
    SplitAt(a, c, b);
    rest := b;
  }

  lemma DottedParts(s: string)
    requires |Split(s, '.')| == 4
    ensures var p := Split(s, '.'); s == Dotted(p[0], p[1], p[2], p[3])
  {
    var rest := SplitHead(s, '.');
    var rest' := SplitHead(rest, '.');
    TwoParts(rest', '.');
  }

  lemma CidrParts(subnet: string)
    requires IsCidr(subnet)
    ensures exists a, b, c, d, m :: CidrOf(subnet, a, b, c, d, m)
  {
    var halves := Split(subnet, '/');
    var octets := Split(halves[0], '.');
    TwoParts(subnet, '/');
    DottedParts(halves[0]);
    assert CidrOf(subnet, octets[0], octets[1], octets[2], octets[3], halves[1]);
  }

  lemma CidrSplits(subnet: string, a: string, b: string, c: string, d: string, m: string)
    requires CidrOf(subnet, a, b, c, d, m)
    ensures IsCidr(subnet)
  {
    SplitDotted(a, b, c, d);
    OctetHasNo(m, '/');
    SplitWhole(m, '/');
    SplitAt(Dotted(a, b, c, d), '/', m);
  }

  /** The form that the pattern asks for. */
  lemma IsCidrIff(subnet: string)
    ensures IsCidr(subnet) <==> exists a, b, c, d, m :: CidrOf(subnet, a, b, c, d, m)
  {
    if IsCidr(subnet) {
      CidrParts(subnet);
    }
    if a, b, c, d, m :| CidrOf(subnet, a, b, c, d, m) {
      CidrSplits(subnet, a, b, c, d, m);
    }
  }

  type Data = map<string, string>

  function PeersOf(data: Data): seq<string>
    requires PEERS in data
  {
    Split(data[PEERS], ',')
  }

  predicate Distinct(names: seq<string>) {
    forall i, j :: 0 <= i < j < |names| ==> names[i] != names[j]
  }

  ghost predicate Taken(data: Data, subnet: string) {
    exists k :: k in data && StartsWith(k, ALLOWED) && NetAddress(data[k]) == NetAddress(subnet)
  }

  /** Some peer's subnet is of this address. */
  ghost predicate AddressStored(data: Data, a: string) {
    exists k :: k in data && StartsWith(k, ALLOWED) && OfAddress(data[k], a)
  }

  /** A subnet is taken exactly if its address is, whatever the prefix lengths. */
  lemma TakenIff(data: Data, subnet: string, a: string)
    requires OfAddress(subnet, a)
    ensures Taken(data, subnet) <==> AddressStored(data, a)
  {
    NetAddressIff(subnet, a);
    forall k | k in data
      ensures NetAddress(data[k]) == a <==> OfAddress(data[k], a)
    {
      NetAddressIff(data[k], a);
    }
  }

  lemma Admission(data: Data, subnet: string)
    ensures IsCidr(subnet) <==> exists a, b, c, d, m :: CidrOf(subnet, a, b, c, d, m)
    ensures forall a, b, c, d, m :: CidrOf(subnet, a, b, c, d, m) ==>
      (Taken(data, subnet) <==> AddressStored(data, Dotted(a, b, c, d)))
  {
    IsCidrIff(subnet);
    forall a, b, c, d, m | CidrOf(subnet, a, b, c, d, m)
      ensures Taken(data, subnet) <==> AddressStored(data, Dotted(a, b, c, d))
    {
      SplitDotted(a, b, c, d);
      TakenIff(data, subnet, Dotted(a, b, c, d));
    }
  }

  /** Names are listed once, every stored subnet is of a listed peer, and network addresses are pairwise distinct. */
  ghost predicate PeersOk(data: Data) {
    && PEERS in data
    && Distinct(PeersOf(data))
    && (forall k :: k in data && StartsWith(k, ALLOWED) ==> k[|ALLOWED|..] in PeersOf(data))
    && (forall k, l :: k in data && l in data && StartsWith(k, ALLOWED) && StartsWith(l, ALLOWED) && k != l ==>
        NetAddress(data[k]) != NetAddress(data[l]))
  }

  function AfterAdd(data: Data, name: string, subnet: string): Data
    requires PEERS in data
  {
    if name == "" || name in PeersOf(data) then data
    else
      var listed := data[PEERS := Join([name] + PeersOf(data))];
      if subnet == "" then listed else listed[ALLOWED + name := subnet]
  }

  /** `peers.remove(name)` */
  function Without(names: seq<string>, name: string): seq<string> {
    if names == [] then []
    else if names[0] == name then names[1..]
    else [names[0]] + Without(names[1..], name)
  }

  function AfterRemove(data: Data, name: string): Data
    requires PEERS in data
  {
    if name == "" || name !in PeersOf(data) then data
    else (data - {ALLOWED + name})[PEERS := Join(Without(PeersOf(data), name))]
  }

  class PeerTable {
    var data: Data

    ghost predicate Valid()
      reads this
    {
      PeersOk(data)
    }

    /** The ConfigMap as it is installed: the only name listed is "0". */
    constructor ()
      ensures Valid() && data == map[PEERS := "0"]
    {
      data := map[PEERS := "0"];
      SplitWhole("0", ',');
      new;
      assert forall k :: k in data ==> k == PEERS;
      assert !StartsWith(PEERS, ALLOWED);
    }

    /** `_subnet_taken` */
    method SubnetTaken(subnet: string) returns (taken: bool)
      ensures taken <==> Taken(data, subnet)
    {
      var pending := data.Keys;
      while pending != {}
        invariant pending <= data.Keys
        invariant forall k :: k in data && StartsWith(k, ALLOWED) && NetAddress(data[k]) == NetAddress(subnet) ==> k in pending
      {
        var k :| k in pending;
        if StartsWith(k, ALLOWED) {
          if NetAddress(data[k]) == NetAddress(subnet) {
            return true;
          }
        }
        pending := pending - {k};
      }
      return false;
    }

    /** `validate`: the admission of a client's `providerParameter`. */
    method Validate(subnet: string, added: bool) returns (r: Result<()>)
      ensures r.Success? <==> subnet == "" || (IsCidr(subnet) && !(added && Taken(data, subnet)))
      ensures r.Success? && subnet != "" ==>
        exists a, b, c, d, m ::
          (CidrOf(subnet, a, b, c, d, m) && (added ==> !AddressStored(data, Dotted(a, b, c, d))))
      ensures r.Failure? ==> forall a, b, c, d, m :: CidrOf(subnet, a, b, c, d, m) ==> added && AddressStored(data, Dotted(a, b, c, d))
    {
      Admission(data, subnet);
      if subnet != "" {
        if !IsCidr(subnet) {
          return Failure("The Wireguard subnet does not validate");
        }
        if added {
          var taken := SubnetTaken(subnet);
          if taken {
            return Failure("The Wireguard subnet is already taken.");
          }
        }
      }
      return Success(());
    }

    /** `peer_exists` */
    method PeerExists(peer: string) returns (b: bool)
      requires Valid()
      ensures b <==> Translate(peer) in PeersOf(data)
    {
      b := Translate(peer) in Split(data[PEERS], ',');
    }

    /** `_edit_peer_configmap(add=..., subnet=...)`: consistent if the subnet is still free, as its admission found. */
    method AddPeer(peer: string, subnet: string)
      requires PEERS in data
      modifies this
      ensures data == AfterAdd(old(data), Translate(peer), subnet)
      ensures old(Valid() && (Taken(data, subnet) ==> subnet == "" || Translate(peer) in PeersOf(data))) ==> Valid()
    {
      var add := Translate(peer);
      if Valid() && (Taken(data, subnet) ==> subnet == "" || Translate(peer) in PeersOf(data)) {
        AddKeepsOk(data, add, subnet);
      }
      var peers := Split(data[PEERS], ',');
      if add != "" && add !in peers {
        peers := [add] + peers;
        data := data[PEERS := Join(peers)];
        if subnet != "" {
          data := data[ALLOWED + add := subnet];
        }
      }
    }

    /** `_edit_peer_configmap(remove=...)` */
    method RemovePeer(peer: string)
      requires Valid()
      modifies this
      ensures Valid() && data == AfterRemove(old(data), Translate(peer))
    {
      var remove := Translate(peer);
      RemoveKeepsOk(data, remove);
      var peers := Split(data[PEERS], ',');
      if remove != "" && remove in peers {
        var kept := Without(peers, remove);
        data := data - {ALLOWED + remove};
        data := data[PEERS := Join(kept)];
      }
    }
  }

  lemma NoComma(name: string)
    requires forall i :: 0 <= i < |name| ==> IsAlnum(name[i])
    ensures ',' !in name
  {
  }

  lemma KeyOfName(name: string)
    ensures StartsWith(ALLOWED + name, ALLOWED) && (ALLOWED + name)[|ALLOWED|..] == name && ALLOWED + name != PEERS
  {
  }

  lemma NameOfKey(k: string)
    requires StartsWith(k, ALLOWED)
    ensures k == ALLOWED + k[|ALLOWED|..] && k != PEERS
  {
  }

  lemma AddListed(data: Data, name: string, subnet: string)
    requires PEERS in data && name != "" && name !in PeersOf(data) && ',' !in name
    ensures PeersOf(AfterAdd(data, name, subnet)) == [name] + PeersOf(data)
  {
    KeyOfName(name);
    SplitHasNoSeparator(data[PEERS], ',');
    SplitJoin([name] + PeersOf(data));
  }

  lemma AddKeepsOk(data: Data, name: string, subnet: string)
    requires PeersOk(data) && forall i :: 0 <= i < |name| ==> IsAlnum(name[i])
    requires Taken(data, subnet) ==> subnet == "" || name in PeersOf(data)
    ensures PeersOk(AfterAdd(data, name, subnet))
  {
    if name != "" && name !in PeersOf(data) {
      NoComma(name);
      AddListed(data, name, subnet);
      KeyOfName(name);
      var data' := AfterAdd(data, name, subnet);
      forall k | k in data' && StartsWith(k, ALLOWED)
        ensures k == ALLOWED + name || (k in data && data'[k] == data[k])
        ensures k[|ALLOWED|..] in PeersOf(data')
      {
        NameOfKey(k);
      }
    }
  }

  lemma {:induction false} WithoutIs(names: seq<string>, name: string)
    requires name in names && Distinct(names)
    ensures forall m :: m in Without(names, name) <==> m in names && m != name
    ensures Distinct(Without(names, name))
  {
    var first, rest := names[0], names[1..];
    assert names == [first] + rest;
    assert forall i :: 0 <= i < |rest| ==> rest[i] == names[i + 1];
    assert first !in rest;
    if first != name {
      WithoutIs(rest, name);
      ConsDistinct(first, Without(rest, name));
    }
  }

  /** `list.remove` takes the first occurrence and keeps the order of the others. */
  lemma {:induction false} WithoutFirst(names: seq<string>, name: string) returns (before: seq<string>, after: seq<string>)
    requires name in names
    ensures names == before + [name] + after && name !in before && Without(names, name) == before + after
  {
    if names[0] == name {
      before, after := [], names[1..];
    } else {
      before, after := WithoutFirst(names[1..], name);
      before := [names[0]] + before;
    }
  }

  lemma ConsDistinct(first: string, rest: seq<string>)
    requires Distinct(rest) && first !in rest
    ensures Distinct([first] + rest)
  {
  }

  /** An emptied list is stored as the empty text, which reads back as one empty name. */
  lemma RemoveListed(data: Data, name: string)
    requires PEERS in data && name != "" && name in PeersOf(data)
    ensures PeersOf(AfterRemove(data, name)) ==
      if Without(PeersOf(data), name) == [] then [""] else Without(PeersOf(data), name)
  {
    SplitHasNoSeparator(data[PEERS], ',');
    WithoutNoSeparator(PeersOf(data), name);
    if Without(PeersOf(data), name) == [] {
      SplitWhole("", ',');
    } else {
      SplitJoin(Without(PeersOf(data), name));
    }
  }

  lemma {:induction false} WithoutNoSeparator(names: seq<string>, name: string)
    requires forall i :: 0 <= i < |names| ==> ',' !in names[i]
    ensures forall i :: 0 <= i < |Without(names, name)| ==> ',' !in Without(names, name)[i]
  {
    if names != [] {
      WithoutNoSeparator(names[1..], name);
    }
  }

  lemma RemoveKeepsOk(data: Data, name: string)
    requires PeersOk(data)
    ensures PeersOk(AfterRemove(data, name))
  {
    if name != "" && name in PeersOf(data) {
      RemoveListed(data, name);
      WithoutIs(PeersOf(data), name);
      var data' := AfterRemove(data, name);
      forall k | k in data' && StartsWith(k, ALLOWED)
        ensures k in data && data'[k] == data[k] && k[|ALLOWED|..] in PeersOf(data')
      {
        NameOfKey(k);
      }
    }
  }

  // ----- Runs -----

  /** A client is admitted, with a subnet or without, and registered before the next one is looked at, or it is removed. */
  datatype Event = Connects(peer: string, subnet: string) | Leaves(peer: string)

  ghost function Apply(data: Data, e: Event): Data
    requires PEERS in data
  {
    match e
    case Connects(peer, subnet) =>
      if subnet != "" && (!IsCidr(subnet) || Taken(data, subnet)) then data else AfterAdd(data, Translate(peer), subnet)
    case Leaves(peer) => AfterRemove(data, Translate(peer))
  }

  ghost function Run(data: Data, events: seq<Event>): Data
    requires PeersOk(data)
    ensures PeersOk(Run(data, events))
    decreases |events|
  {
    if events == [] then data
    else
      ApplyKeepsOk(data, events[0]);
      Run(Apply(data, events[0]), events[1..])
  }

  lemma ApplyKeepsOk(data: Data, e: Event)
    requires PeersOk(data)
    ensures PeersOk(Apply(data, e))
  {
    match e
    case Connects(peer, subnet) =>
      if subnet == "" || (IsCidr(subnet) && !Taken(data, subnet)) {
        AddKeepsOk(data, Translate(peer), subnet);
      }
    case Leaves(peer) => RemoveKeepsOk(data, Translate(peer));
  }

  /** The client is listed with this subnet. */
  predicate Registered(data: Data, peer: string, subnet: string) {
    ALLOWED + Translate(peer) in data && data[ALLOWED + Translate(peer)] == subnet
  }

  /** After any run no two peers share a network address. */
  lemma NoSharedAddress(data: Data, events: seq<Event>, a: string, sa: string, x: string, b: string, sb: string, y: string)
    requires PeersOk(data)
    requires Registered(Run(data, events), a, sa) && Registered(Run(data, events), b, sb)
    requires Translate(a) != Translate(b) && OfAddress(sa, x) && OfAddress(sb, y)
    ensures x != y
  {
    NetAddressIff(sa, x);
    NetAddressIff(sb, y);
    KeyOfName(Translate(a));
    KeyOfName(Translate(b));
    assert (ALLOWED + Translate(a))[|ALLOWED|..] != (ALLOWED + Translate(b))[|ALLOWED|..];
  }

  /** An admitted subnet is stored exactly if no client of the same translated name is listed. */
  lemma StoredIffNew(data: Data, peer: string, subnet: string)
    requires PeersOk(data) && peer != "" && subnet != "" && IsCidr(subnet) && !Taken(data, subnet)
    ensures Registered(Apply(data, Connects(peer, subnet)), peer, subnet) <==> Translate(peer) !in PeersOf(data)
  {
    KeyOfName(Translate(peer));
    assert !Registered(data, peer, subnet);
  }

  /** A subnet, once stored, stays with its peer until that peer leaves. */
  lemma {:induction false} SubnetStays(data: Data, events: seq<Event>, peer: string, subnet: string)
    requires PeersOk(data) && Registered(data, peer, subnet)
    requires forall i :: 0 <= i < |events| && events[i].Leaves? ==> Translate(events[i].peer) != Translate(peer)
    ensures Registered(Run(data, events), peer, subnet)
    decreases |events|
  {
    if events != [] {
      ApplyKeepsOk(data, events[0]);
      StepKeepsSubnet(data, events[0], peer, subnet);
      assert forall i :: 0 <= i < |events[1..]| ==> events[1..][i] == events[i + 1];
      SubnetStays(Apply(data, events[0]), events[1..], peer, subnet);
    }
  }

  lemma StepKeepsSubnet(data: Data, e: Event, peer: string, subnet: string)
    requires PeersOk(data) && Registered(data, peer, subnet)
    requires e.Leaves? ==> Translate(e.peer) != Translate(peer)
    ensures Registered(Apply(data, e), peer, subnet)
  {
    var k := ALLOWED + Translate(peer);
    KeyOfName(Translate(peer));
    KeyOfName(Translate(e.peer));
    assert Translate(e.peer) != Translate(peer) ==> ALLOWED + Translate(e.peer) != k;
    assert k[|ALLOWED|..] in PeersOf(data);
  }
}

/** The client's side of the negotiation of a subnet: finding a free one with Docker's help, and the retry loop. */
module SubnetNegotiation {
  import opened Wrappers
  import opened Sets

  const TRIES := 255
  const MAX_RETRIES := 10

  /** What Docker makes of the creation of a temporary network; 409 is `Conflict`. */
  datatype Creation = Created(subnet: string) | Conflict | OtherError

  predicate Free(c: Creation, occupied: seq<string>) { c.Created? && c.subnet !in occupied }

  /** How many creations are tried: up to the first free subnet. */
  function Tried(creations: seq<Creation>, occupied: seq<string>): (n: nat)
    ensures n <= |creations|
    ensures forall i :: 0 <= i < n - 1 ==> !Free(creations[i], occupied)
    ensures n < |creations| ==> n > 0 && Free(creations[n - 1], occupied)
    ensures n == 0 <==> creations == []
  {
    if creations == [] then 0
    else if Free(creations[0], occupied) then 1
    else 1 + Tried(creations[1..], occupied)
  }

  ghost predicate SomeFree(creations: seq<Creation>, occupied: seq<string>) {
    exists i :: 0 <= i < |creations| && Free(creations[i], occupied)
  }

  ghost predicate SomeCreated(creations: seq<Creation>) { exists i :: 0 <= i < |creations| && creations[i].Created? }

  ghost predicate NoOtherError(creations: seq<Creation>) { forall i :: 0 <= i < |creations| ==> !creations[i].OtherError? }

  class Docker {
    /** The temporary networks, by the number in their name, with their subnets. */
    var temporary: map<nat, string>

    constructor ()
      ensures temporary == map[]
    {
      temporary := map[];
    }

    /** `network.remove()`; a network that is gone raises. */
    method Remove(id: nat) returns (ok: bool)
      modifies this
      ensures ok <==> id in old(temporary)
      ensures temporary == old(temporary) - {id}
    {
      ok := id in temporary;
      temporary := temporary - {id};
    }

    /**
      `_get_subnet`. An error other than 409 puts the network created last on the list once more, so that its second
      removal raises; without such errors the temporary networks are all removed again.
     */
    method GetSubnet(creations: seq<Creation>, occupied: seq<string>) returns (r: Result<string>)
      requires FromDocker(creations, temporary)
      modifies this
      ensures r.Success? <==>
        (SomeCreated(creations[..Tried(creations, occupied)]) && NoOtherError(creations[..Tried(creations, occupied)]))
      ensures r.Success? ==> temporary == old(temporary)
      ensures r.Success? ==> (r.value !in occupied <==> SomeFree(creations, occupied))
      ensures r.Success? ==> Created(r.value) in creations
    {
      var networks, subnet, raised := TryCreations(creations, occupied);
      if raised {
        return Failure("Could not create a temporary network");
      }
      var removed := RemoveAll(networks);
      if !removed {
        return Failure("NotFound");
      }
      assert NoOtherError(creations[..Tried(creations, occupied)]);
      if subnet == "" {
        return Failure("Could not find a free subnet");
      }
      return Success(subnet);
    }

    /** The first loop of `_get_subnet`. */
    method TryCreations(creations: seq<Creation>, occupied: seq<string>)
        returns (networks: seq<nat>, subnet: string, raised: bool)
      requires FromDocker(creations, temporary)
      modifies this
      ensures var tried := creations[..Tried(creations, occupied)];
        && (raised ==> !NoOtherError(tried))
        && (!raised ==> (DistinctIds(networks) <==> NoOtherError(tried)))
        && (!raised ==> Held(networks, old(temporary), temporary))
        && (!raised ==> (subnet == "" <==> !SomeCreated(tried)))
      ensures !raised && subnet != "" ==>
        Created(subnet) in creations && (subnet !in occupied <==> SomeFree(creations, occupied))
    {
      networks, subnet, raised := [], "", false;
      var last: Option<nat> := None;
      for i := 0 to TRIES
        invariant NoneFree(creations[..i], occupied)
        invariant Collects(creations[..i], networks, subnet, last, old(temporary), temporary)
      {
        assert creations[..i + 1] == creations[..i] + [creations[i]];
        TriedIs(creations, occupied, i);
        var added;
        networks, subnet, last, added :=
          TryOne(i, creations[i], networks, subnet, last, creations[..i], old(temporary));
        if creations[i].OtherError? && last.None? {
          raised := true;
          assert creations[i] in creations[..Tried(creations, occupied)];
          return;
        }
        if added && subnet !in occupied {
          StoppedEarly(creations, occupied, i, networks, subnet, last, old(temporary), temporary);
          return;
        }
      }
      assert creations[..TRIES] == creations;
      NothingFree(creations, occupied, networks, subnet, last, old(temporary), temporary);
    }

    /** One creation, after those in `done`; without any network so far an error changes nothing and raises. */
    method TryOne(i: nat, creation: Creation, networks: seq<nat>, subnet: string, last: Option<nat>,
                  ghost done: seq<Creation>, ghost before: map<nat, string>)
        returns (networks': seq<nat>, subnet': string, last': Option<nat>, added: bool)
      requires Collects(done, networks, subnet, last, before, temporary)
      requires |done| == i && (creation.Created? ==> i !in before)
      modifies this
      ensures added <==> creation.Created? || (creation.OtherError? && last.Some?)
      ensures creation.OtherError? && last.None? ==> last'.None?
      ensures creation.OtherError? ==> last' == last
      ensures !(creation.OtherError? && last.None?) ==>
        Collects(done + [creation], networks', subnet', last', before, temporary)
      ensures added ==> last'.Some?
      ensures creation.Created? ==> subnet' == creation.subnet
    {
      networks', subnet', last', added := networks, subnet, last, false;
      Skips(done, creation, networks, subnet, last, before, temporary);
      match creation {
        case Conflict =>
          return;
        case Created(s) =>
          Grows(done, creation, networks, subnet, last, before, temporary);
          temporary := temporary[i := s];
          last' := Some(i);
        case OtherError =>
          if last.None? {
            return;
          }
          Repeats(done, creation, networks, subnet, last, before, temporary);
      }
      networks' := networks' + [last'.value];
      subnet' := temporary[last'.value];
      added := true;
    }

    /** The second loop of `_get_subnet`. */
    method RemoveAll(networks: seq<nat>) returns (ok: bool)
      requires forall k :: 0 <= k < |networks| ==> networks[k] in temporary
      modifies this
      ensures ok <==> DistinctIds(networks)
      ensures ok ==> temporary == map id | id in old(temporary) && id !in networks :: old(temporary)[id]
    {
      for k := 0 to |networks|
        invariant DistinctIds(networks[..k])
        invariant temporary == map id | id in old(temporary) && id !in networks[..k] :: old(temporary)[id]
      {
        assert networks[..k + 1] == networks[..k] + [networks[k]];
        ok := Remove(networks[k]);
        if !ok {
          return;
        }
      }
      assert networks[..|networks|] == networks;
      return true;
    }
  }

  predicate DistinctIds(networks: seq<nat>) { forall i, j :: 0 <= i < j < |networks| ==> networks[i] != networks[j] }

  /** The networks on the list are there, and but for them everything is as before. */
  ghost predicate Held(networks: seq<nat>, before: map<nat, string>, after: map<nat, string>) {
    && (forall k :: 0 <= k < |networks| ==> networks[k] in after && networks[k] !in before)
    && before == map id | id in after && id !in networks :: after[id]
  }

  /** A name is free or the creation conflicts; subnets are not empty. */
  ghost predicate FromDocker(creations: seq<Creation>, temporary: map<nat, string>) {
    && |creations| == 255
    && (forall id :: id in temporary && id < TRIES ==> creations[id].Conflict?)
    && (forall i :: 0 <= i < TRIES && creations[i].Created? ==> creations[i].subnet != "")
  }

  ghost predicate NoneFree(done: seq<Creation>, occupied: seq<string>) {
    forall j :: 0 <= j < |done| ==> !Free(done[j], occupied)
  }

  /** The state of the first loop after the creations `done`. */
  ghost predicate Collects(done: seq<Creation>, networks: seq<nat>, subnet: string, last: Option<nat>,
                           before: map<nat, string>, after: map<nat, string>)
  {
    && (last.Some? <==> SomeCreated(done))
    && (last.Some? ==>
        && last.value < |done| && done[last.value] == Created(subnet)
        && last.value in after && after[last.value] == subnet && last.value in networks)
    && (last.None? ==> subnet == "" && networks == [])
    && (forall k :: 0 <= k < |networks| ==> networks[k] < |done|)
    && (DistinctIds(networks) <==> NoOtherError(done))
    && Held(networks, before, after)
  }

  lemma Skips(done: seq<Creation>, c: Creation, networks: seq<nat>, subnet: string, last: Option<nat>,
              before: map<nat, string>, after: map<nat, string>)
    requires Collects(done, networks, subnet, last, before, after)
    ensures c.Conflict? ==> Collects(done + [c], networks, subnet, last, before, after)
    ensures NoOtherError(done + [c]) <==> NoOtherError(done) && !c.OtherError?
    ensures SomeCreated(done + [c]) <==> SomeCreated(done) || c.Created?
  {
    var all := done + [c];
    assert forall j :: 0 <= j < |done| ==> all[j] == done[j];
    assert all[|done|] == c;
    if SomeCreated(done) {
      var j :| 0 <= j < |done| && done[j].Created?;
      assert all[j].Created?;
    }
  }

  lemma Grows(done: seq<Creation>, c: Creation, networks: seq<nat>, subnet: string, last: Option<nat>,
              before: map<nat, string>, after: map<nat, string>)
    requires Collects(done, networks, subnet, last, before, after)
    requires c.Created? && |done| !in before
    ensures Collects(done + [c], networks + [|done|], c.subnet, Some(|done|), before, after[|done| := c.subnet])
  {
    Skips(done, c, networks, subnet, last, before, after);
    var networks', after' := networks + [|done|], after[|done| := c.subnet];
    assert networks'[|networks|] == |done|;
    assert DistinctIds(networks') <==> DistinctIds(networks) by {
      assert forall k :: 0 <= k < |networks| ==> networks'[k] == networks[k];
    }
    assert (done + [c])[|done|] == c;
    forall id | id in after && id !in networks
      ensures id != |done|
    {
      assert id in before;
    }
    assert before == map id | id in after' && id !in networks' :: after'[id];
  }

  /** The stale network goes on the list a second time. */
  lemma Repeats(done: seq<Creation>, c: Creation, networks: seq<nat>, subnet: string, last: Option<nat>,
                before: map<nat, string>, after: map<nat, string>)
    requires Collects(done, networks, subnet, last, before, after)
    requires c.OtherError? && last.Some?
    ensures Collects(done + [c], networks + [last.value], subnet, last, before, after)
  {
    Skips(done, c, networks, subnet, last, before, after);
    var networks' := networks + [last.value];
    var k :| 0 <= k < |networks| && networks[k] == last.value;
    assert networks'[k] == networks'[|networks|];
    assert (done + [c])[last.value] == done[last.value];
    forall id
      ensures id in networks' <==> id in networks
    {
    }
    assert before == map id | id in after && id !in networks' :: after[id];
  }

  lemma TriedIs(creations: seq<Creation>, occupied: seq<string>, i: nat)
    requires i < |creations| && NoneFree(creations[..i], occupied)
    ensures i < Tried(creations, occupied)
    ensures Free(creations[i], occupied) ==> Tried(creations, occupied) == i + 1
    ensures !Free(creations[i], occupied) ==> NoneFree(creations[..i + 1], occupied)
  {
    var n := Tried(creations, occupied);
    assert forall j :: 0 <= j < i ==> creations[..i][j] == creations[j];
    if n < |creations| {
      assert Free(creations[n - 1], occupied);
    }
  }

  lemma StoppedEarly(creations: seq<Creation>, occupied: seq<string>, i: nat, networks: seq<nat>, subnet: string,
                     last: Option<nat>, before: map<nat, string>, after: map<nat, string>)
    requires i < |creations| && NoneFree(creations[..i], occupied)
    requires Collects(creations[..i + 1], networks, subnet, last, before, after)
    requires last.Some? && subnet !in occupied
    ensures Tried(creations, occupied) == i + 1 && SomeFree(creations, occupied) && Created(subnet) in creations
  {
    var l := last.value;
    assert creations[..i + 1][l] == creations[l] == Created(subnet);
    assert l < i ==> creations[..i][l] == creations[l];
    TriedIs(creations, occupied, i);
  }

  lemma NothingFree(creations: seq<Creation>, occupied: seq<string>, networks: seq<nat>, subnet: string,
                    last: Option<nat>, before: map<nat, string>, after: map<nat, string>)
    requires NoneFree(creations, occupied) && Collects(creations, networks, subnet, last, before, after)
    ensures creations[..Tried(creations, occupied)] == creations && !SomeFree(creations, occupied)
    ensures last.Some? ==> Created(subnet) in creations && subnet in occupied
  {
    assert Tried(creations, occupied) >= |creations|;
    if last.Some? {
      assert !Free(creations[last.value], occupied);
    }
  }

  // ----- Enough creations -----

  function CreatedAt(creations: seq<Creation>): set<nat> {
    set i: nat | i < |creations| && creations[i].Created?
  }

  /** Docker gives networks that live at the same time different subnets. */
  ghost predicate DistinctSubnets(creations: seq<Creation>) {
    forall i, j :: 0 <= i < j < |creations| && creations[i].Created? && creations[j].Created? ==>
      creations[i].subnet != creations[j].subnet
  }

  lemma {:induction false} SubnetsCounted(creations: seq<Creation>, ids: set<nat>)
    requires DistinctSubnets(creations) && ids <= CreatedAt(creations)
    ensures |set i | i in ids :: creations[i].subnet| == |ids|
    decreases |ids|
  {
    if ids != {} {
      var i :| i in ids;
      var rest := ids - {i};
      SubnetsCounted(creations, rest);
      var subnets := set j | j in rest :: creations[j].subnet;
      assert (set j | j in ids :: creations[j].subnet) == subnets + {creations[i].subnet};
      assert creations[i].subnet !in subnets;
    }
  }

  /** With more creations that succeed than occupied subnets the picker finds a free one. */
  lemma ManyCreationsFindFree(creations: seq<Creation>, occupied: seq<string>)
    requires DistinctSubnets(creations)
    requires |CreatedAt(creations)| > |set s | s in occupied|
    ensures SomeFree(creations, occupied)
  {
    if !SomeFree(creations, occupied) {
      var ids := CreatedAt(creations);
      SubnetsCounted(creations, ids);
      forall i | i in ids
        ensures creations[i].subnet in occupied
      {
        assert !Free(creations[i], occupied);
      }
      SubsetCardinality(set i | i in ids :: creations[i].subnet, set s | s in occupied);
      assert false;
    }
  }

  // ----- The loop of `connect` -----

  /** How the API server answers the activation: 500 is what the admission webhook refuses with. */
  datatype Answer = Accepted | Refused | ApiError

  /** The network that `get_or_create_gefyra_network` makes in attempt `i` with these subnets banned. */
  type Picker = (nat, seq<string>) -> Option<string>

  ghost predicate AvoidsBanned(pick: Picker) {
    forall i, banned :: pick(i, banned).Some? ==> pick(i, banned).value !in banned
  }

  /** What the loop has done: the subnets proposed and the answers to them. */
  datatype Attempt = Attempt(subnet: string, answer: Answer)

  ghost predicate NeverAgain(attempts: seq<Attempt>) {
    forall i, j :: 0 <= i < j < |attempts| && attempts[i].answer.Refused? ==> attempts[j].subnet != attempts[i].subnet
  }

  ghost predicate AllFailed(attempts: seq<Attempt>) {
    forall i :: 0 <= i < |attempts| ==> !attempts[i].answer.Accepted?
  }

  ghost predicate AlwaysPicks(pick: Picker) { forall i, banned :: pick(i, banned).Some? }

  /** The webhook refuses exactly these subnets and nothing else fails. */
  ghost predicate RefusesExactly(answer: (nat, string) -> Answer, taken: set<string>) {
    forall i, subnet :: answer(i, subnet) == if subnet in taken then Refused else Accepted
  }

  /** The subnets refused so far, in order: `rejected_subnets`. */
  ghost function Rejected(attempts: seq<Attempt>): seq<string> {
    if attempts == [] then []
    else
      var last := attempts[|attempts| - 1];
      Rejected(attempts[..|attempts| - 1]) + if last.answer.Refused? then [last.subnet] else []
  }

  /** The network that is there after these attempts: a refused one is removed. */
  ghost function NetworkAfter(existing: Option<string>, attempts: seq<Attempt>): Option<string> {
    if attempts == [] then existing
    else
      var last := attempts[|attempts| - 1];
      if last.answer.Refused? then None else Some(last.subnet)
  }

  /** The next proposal: the network that is there, or one that is picked with the refused subnets banned. */
  ghost function Proposal(existing: Option<string>, pick: Picker, attempts: seq<Attempt>): Option<string> {
    if NetworkAfter(existing, attempts).Some? then NetworkAfter(existing, attempts) else pick(|attempts|, Rejected(attempts))
  }

  ghost predicate ProposedAt(existing: Option<string>, pick: Picker, attempts: seq<Attempt>, i: nat) {
    i < |attempts| && Proposal(existing, pick, attempts[..i]) == Some(attempts[i].subnet)
  }

  /** Every attempt is with the subnet that was to be proposed next. */
  ghost predicate Follows(existing: Option<string>, pick: Picker, attempts: seq<Attempt>) {
    forall i :: 0 <= i < |attempts| ==> ProposedAt(existing, pick, attempts, i)
  }

  lemma FollowsStep(existing: Option<string>, pick: Picker, attempts: seq<Attempt>, a: Attempt)
    requires Follows(existing, pick, attempts) && Proposal(existing, pick, attempts) == Some(a.subnet)
    ensures Follows(existing, pick, attempts + [a])
    ensures Rejected(attempts + [a]) == if a.answer.Refused? then Rejected(attempts) + [a.subnet] else Rejected(attempts)
    ensures NetworkAfter(existing, attempts + [a]) == if a.answer.Refused? then None else Some(a.subnet)
  {
    var all := attempts + [a];
    assert all[..|attempts|] == attempts;
    forall i | 0 <= i < |all|
      ensures ProposedAt(existing, pick, all, i)
    {
      if i < |attempts| {
        assert ProposedAt(existing, pick, attempts, i);
        assert all[..i] == attempts[..i] && all[i] == attempts[i];
      }
    }
  }

  lemma {:induction false} RejectedHas(attempts: seq<Attempt>, i: nat)
    requires i < |attempts| && attempts[i].answer.Refused?
    ensures attempts[i].subnet in Rejected(attempts)
  {
    if i < |attempts| - 1 {
      RejectedHas(attempts[..|attempts| - 1], i);
    }
  }

  /** A picker that avoids the banned subnets never leads to a refused one again. */
  lemma {:induction false} FollowsAvoids(existing: Option<string>, pick: Picker, attempts: seq<Attempt>, i: nat, j: nat)
    requires Follows(existing, pick, attempts) && AvoidsBanned(pick)
    requires i < j < |attempts| && attempts[i].answer.Refused?
    ensures attempts[j].subnet != attempts[i].subnet
  {
    var before := attempts[..j];
    assert ProposedAt(existing, pick, attempts, j);
    if attempts[j - 1].answer.Refused? {
      RejectedHas(before, i);
    } else {
      FollowsAvoids(existing, pick, attempts, i, j - 1);
    }
  }

  lemma FollowsNeverAgain(existing: Option<string>, pick: Picker, attempts: seq<Attempt>)
    requires Follows(existing, pick, attempts)
    ensures AvoidsBanned(pick) ==> NeverAgain(attempts)
  {
    if AvoidsBanned(pick) {
      forall i, j | 0 <= i < j < |attempts| && attempts[i].answer.Refused?
        ensures attempts[j].subnet != attempts[i].subnet
      {
        FollowsAvoids(existing, pick, attempts, i, j);
      }
    }
  }

  lemma {:induction false} DistinctWithin(attempts: seq<Attempt>, taken: set<string>)
    requires NeverAgain(attempts)
    requires forall i :: 0 <= i < |attempts| ==> attempts[i].answer.Refused? && attempts[i].subnet in taken
    ensures |attempts| <= |taken|
  {
    if attempts != [] {
      var n := |attempts| - 1;
      var s := attempts[n].subnet;
      DistinctWithin(attempts[..n], taken - {s});
    }
  }

  /**
    Progress: if the webhook refuses exactly the taken subnets and fewer than ten are taken, a negotiation in which
    every network could be created succeeds.
   */
  lemma NegotiationSucceeds(attempts: seq<Attempt>, taken: set<string>)
    requires NeverAgain(attempts) && AllFailed(attempts)
    requires forall i :: 0 <= i < |attempts| ==> attempts[i].answer == if attempts[i].subnet in taken then Refused else Accepted
    requires |taken| < MAX_RETRIES
    ensures |attempts| < MAX_RETRIES
  {
    DistinctWithin(attempts, taken);
  }

  lemma RunsOut(attempts: seq<Attempt>, answer: (nat, string) -> Answer)
    requires NeverAgain(attempts) && AllFailed(attempts) && |attempts| == MAX_RETRIES
    requires forall i :: 0 <= i < |attempts| ==> attempts[i].answer == answer(i, attempts[i].subnet)
    ensures forall taken: set<string> :: RefusesExactly(answer, taken) ==> |taken| >= MAX_RETRIES
  {
    forall taken: set<string> | RefusesExactly(answer, taken)
      ensures |taken| >= MAX_RETRIES
    {
      if |taken| < MAX_RETRIES {
        NegotiationSucceeds(attempts, taken);
      }
    }
  }

  /**
    The loop of `connect`, beginning with the network of an earlier connection if there is one. `None` as a result of
    `pick` is a network that could not be created, which raises; a picker may also run out of tries and return a
    banned subnet.
   */
  method Propose(existing: Option<string>, pick: Picker, answer: (nat, string) -> Answer)
      returns (connected: bool, attempts: seq<Attempt>)
    ensures |attempts| <= 10 && Follows(existing, pick, attempts)
    ensures connected <==> attempts != [] && attempts[|attempts| - 1].answer.Accepted?
    ensures connected ==> AllFailed(attempts[..|attempts| - 1])
    ensures !connected ==> AllFailed(attempts) && (|attempts| == 10 || Proposal(existing, pick, attempts).None?)
    ensures forall i :: 0 <= i < |attempts| ==> attempts[i].answer == answer(i, attempts[i].subnet)
  {
    attempts := [];
    connected := false;
    var rejected: seq<string> := [];
    var network := existing;
    var retry := 0;
    while retry < MAX_RETRIES
      invariant 0 <= retry <= MAX_RETRIES && |attempts| == retry
      invariant AllFailed(attempts) && Follows(existing, pick, attempts)
      invariant rejected == Rejected(attempts) && network == NetworkAfter(existing, attempts)
      invariant forall i :: 0 <= i < |attempts| ==> attempts[i].answer == answer(i, attempts[i].subnet)
    {
      if network.None? {
        network := pick(retry, rejected);
        if network.None? {
          return;
        }
      }
      var subnet := network.value;
      var a := answer(retry, subnet);
      FollowsStep(existing, pick, attempts, Attempt(subnet, a));
      attempts := attempts + [Attempt(subnet, a)];
      if a.Accepted? {
        return true, attempts;
      }
      retry := retry + 1;
      if a.Refused? {
        rejected := rejected + [subnet];
        network := None;
      }
    }
  }

  /** The negotiation in `connect`, with what it promises about the subnets proposed. */
  method Negotiate(existing: Option<string>, pick: Picker, answer: (nat, string) -> Answer)
      returns (connected: bool, attempts: seq<Attempt>)
    ensures |attempts| <= 10 && Follows(existing, pick, attempts)
    ensures AvoidsBanned(pick) ==> NeverAgain(attempts)
    ensures connected <==> attempts != [] && attempts[|attempts| - 1].answer.Accepted?
    ensures !connected ==> AllFailed(attempts) && (|attempts| == 10 || Proposal(existing, pick, attempts).None?)
    ensures AvoidsBanned(pick) && AlwaysPicks(pick) ==>
      forall taken: set<string> :: RefusesExactly(answer, taken) && |taken| < 10 ==> connected
  {
    connected, attempts := Propose(existing, pick, answer);
    FollowsNeverAgain(existing, pick, attempts);
    if !connected && AvoidsBanned(pick) && AlwaysPicks(pick) {
      RunsOut(attempts, answer);
    }
  }
}

/**
  The life of a GefyraBridgeMount under its timer: the grace period for a missing target, and what becomes of a mount
  whose shadow workload was deleted meanwhile.
 */
module BridgeMounts {
  import opened Wrappers
  import opened ShadowWorkloads

  datatype MountState = Requested | Preparing | Installing | Active | Restoring | Error | Missing | Terminated

  predicate Operational(s: MountState) { s != Missing && s != Terminated }

  /** `target_exists` of the provider: a failing request counts as absence. */
  datatype Probe = Present | Absent | Failed

  /** `prepare` duplicates the workload, then its Service; either may fail. */
  datatype Preparation = Succeeds | FailsBefore | FailsAfter

  /** What the provider answers in one run of a handler, if it finds the shadow workload. */
  datatype Provider = Provider(
    preparation: Preparation,
    prepared: bool,
    podsReady: bool,
    installs: bool,
    ready: bool,
    intact: bool)

  /**
    One run of the timer: the clock when it looks (`now`) and when it writes, the object's `sunset` and
    `missingGracePeriod` at that time and the operator's default, and what it is told about the cluster. An uninstall
    fails if the shadow workload cannot be deleted.
   */
  datatype Tick = Tick(
    now: int,
    written: int,
    sunset: Option<int>,
    gracePeriod: Option<int>,
    defaultGracePeriod: int,
    probe: Probe,
    uninstallFails: bool,
    provider: Provider)

  /** `missing_grace_period` */
  ghost function Grace(tick: Tick): int {
    match tick.gracePeriod
    case Some(g) => g
    case None => tick.defaultGracePeriod
  }

  ghost predicate SunsetReached(tick: Tick) { tick.sunset.Some? && tick.sunset.value <= tick.now }

  /**
    What the cluster holds of a mount: the name of its target, `state` and `stateTransitions`, and whether a shadow
    workload exists under the name by which it is looked up.
   */
  datatype Record = Record(name: string, state: MountState, stamps: map<MountState, int>, shadow: bool)

  ghost function New(name: string): Record { Record(name, Requested, map[], false) }

  datatype Outcome = Skipped | AtSunset | TargetMissing | Kept

  /** `_write_state` */
  ghost function Written(d: Record, s: MountState, at: int): Record { d.(state := s, stamps := d.stamps[s := at]) }

  /** `_duplicate_workload` creates or patches the shadow under its own name, which may have been cut. */
  ghost function ShadowAfterPrepare(d: Record, preparation: Preparation): bool {
    d.shadow || (preparation != FailsBefore && DuplicateName(d.name) == LookedUpName(d.name))
  }

  /** `uninstall` */
  ghost function Uninstalled(d: Record, fails: bool): Record { d.(shadow := d.shadow && fails) }

  /** The provider's answers: without a shadow workload its questions about the Pods raise, which counts as no. */
  ghost function Seen(provider: Provider, shadow: bool): Provider {
    if shadow then provider else provider.(prepared := false, podsReady := false, ready := false, intact := false)
  }

  ghost predicate GraceExpired(d: Record, tick: Tick) {
    Missing in d.stamps && tick.now >= d.stamps[Missing] + Grace(tick)
  }

  ghost function Prepared(provider: Provider): MountState { if provider.preparation.Succeeds? then Preparing else Error }

  /** States from which the handlers prepare first. */
  ghost predicate Unprepared(s: MountState) { s == Requested || s == Error || s == Restoring }

  /** The shadow when the handlers ask for it. */
  ghost function ShadowWhenAsked(d: Record, provider: Provider): bool {
    if Unprepared(d.state) then ShadowAfterPrepare(d, provider.preparation) else d.shadow
  }

  /** A tick prepares a mount whose target is there if it was not prepared yet or is not intact any more. */
  ghost function ShadowAfterTick(d: Record, provider: Provider): bool {
    if Unprepared(d.state) || (d.state == Active && !Seen(provider, d.shadow).intact)
    then ShadowAfterPrepare(d, provider.preparation) else d.shadow
  }

  /** Where one tick leads a mount whose target is there, given what the provider has seen. */
  ghost function Operated(s: MountState, provider: Provider): MountState {
    match s
    case Active => if provider.intact then Active else Prepared(provider)
    case Installing => if provider.prepared then Installed(provider) else Installing
    case _ =>
      if s != Preparing && !provider.preparation.Succeeds? then Error
      else if provider.prepared && provider.podsReady then Installed(provider)
      else Preparing
  }

  /** Where an installation leads, with the check for intactness that follows it. */
  ghost function Installed(provider: Provider): MountState {
    if !provider.installs then Error
    else if !provider.ready then Installing
    else if !provider.intact then Prepared(provider)
    else Active
  }

  /** Where the create handler leads a mount that is being installed, before it looks at errors. */
  ghost function AfterInstalling(provider: Provider): MountState {
    if !provider.prepared then Installing
    else if provider.ready then Active
    else if provider.installs then Installing
    else Error
  }

  /** Where the create handler leads a mount that has never been active, given what the provider has seen. */
  ghost function Created(s: MountState, provider: Provider): MountState {
    match s
    case Error => Prepared(provider)
    case Restoring => Prepared(provider)
    case Installing => if AfterInstalling(provider) == Error then Prepared(provider) else AfterInstalling(provider)
    case Active => Active
    case Missing => Missing
    case Terminated => Terminated
    case _ =>
      if s == Requested && !provider.preparation.Succeeds? then Error
      else if !provider.podsReady then Preparing
      else if !provider.installs then Prepared(provider)
      else if provider.ready then Active
      else Installing
  }

  class GefyraBridgeMount {
    var state: MountState
    /** What the cluster holds. */
    var stored: Record

    constructor (name: string)
      ensures state == Requested && stored == New(name)
    {
      state, stored := Requested, Record(name, Requested, map[], false);
    }

    /** The `state` setter: the terminated state is never written. */
    method SetState(s: MountState, at: int)
      modifies this
      ensures state == s
      ensures stored == if s == Terminated then old(stored) else Written(old(stored), s, at)
    {
      state := s;
      if s != Terminated {
        stored := stored.(state := s, stamps := stored.stamps[s := at]);
      }
    }

    /** `arrange`, with the `impair` that its action sends if the workload cannot be prepared. */
    method Arrange(provider: Provider, at: int)
      requires state in {Requested, Preparing, Restoring, Error}
      modifies this
      ensures state == stored.state == Prepared(provider)
      ensures stored.shadow == ShadowAfterPrepare(old(stored), provider.preparation)
      ensures StampsGrow(old(stored), stored, at) && (Active in stored.stamps <==> Active in old(stored).stamps)
    {
      SetState(Preparing, at);
      if provider.preparation != FailsBefore && DuplicateName(stored.name) == LookedUpName(stored.name) {
        stored := stored.(shadow := true);
      }
      if !provider.preparation.Succeeds? {
        SetState(Error, at);
      }
    }

    /** `restore`, whose action sends `arrange`. */
    method Restore(provider: Provider, at: int)
      requires state in {Active, Error, Installing, Preparing, Restoring}
      modifies this
      ensures state == stored.state == Prepared(provider)
      ensures stored.shadow == ShadowAfterPrepare(old(stored), provider.preparation)
      ensures StampsGrow(old(stored), stored, at) && (Active in stored.stamps <==> Active in old(stored).stamps)
    {
      SetState(Restoring, at);
      Arrange(provider, at);
    }

    /** `uninstall`, run when the target is found missing and on termination; its failures are logged. */
    method Uninstall(fails: bool)
      modifies this
      ensures state == old(state) && stored == Uninstalled(old(stored), fails)
    {
      if !fails {
        stored := stored.(shadow := false);
      }
    }

    /**
      `install`; its action sends `activate` or `impair`. `false` where it raises: the Pods are not ready, or the
      condition of `activate` does not hold.
     */
    method Install(provider: Provider, at: int) returns (ok: bool)
      requires state in {Preparing, Installing}
      modifies this
      ensures var p := Seen(provider, old(stored).shadow);
        state == if old(state) == Preparing && !p.podsReady then old(state)
                 else if !p.installs then Error
                 else if p.ready then Active else Installing
      ensures old(stored).state == old(state) ==> stored.state == state
      ensures StampsGrow(old(stored), stored, at) && stored.shadow == old(stored).shadow
      ensures Active in stored.stamps <==> Active in old(stored).stamps || state == Active
      ensures ok <==> state == Active || state == Error
    {
      if state == Preparing && !(stored.shadow && provider.podsReady) {
        return false;
      }
      SetState(Installing, at);
      if !provider.installs {
        SetState(Error, at);
        return true;
      }
      if !(stored.shadow && provider.ready) {
        return false;
      }
      SetState(Active, at);
      return true;
    }

    /** The branch of the timer for a mount whose target is there. */
    method Operate(provider: Provider, at: int)
      requires Operational(state) && stored.state == state
      modifies this
      ensures Operational(state) && stored.state == state
      ensures StampsGrow(old(stored), stored, at)
      ensures state == Operated(old(state), Seen(provider, ShadowWhenAsked(old(stored), provider)))
      ensures stored.shadow == ShadowAfterTick(old(stored), provider)
      ensures old(state) == Active && Seen(provider, old(stored).shadow).intact ==> stored == old(stored)
    {
      if state == Requested {
        Arrange(provider, at);
      }
      if state == Error {
        Restore(provider, at);
      }
      if state == Restoring {
        Restore(provider, at);
      }
      if state == Preparing || state == Installing {
        if stored.shadow && provider.prepared {
          var ok := Install(provider, at);
          if !ok {
            return;
          }
        }
      }
      if state == Active {
        if !(stored.shadow && provider.intact) {
          Restore(provider, at);
        }
      }
    }

    /** `missing_grace_period_expired`: without a stamp of MISSING nothing expires. */
    method MissingGracePeriodExpired(perResource: Option<int>, default: int, now: int) returns (expired: bool)
      ensures perResource.None? ==> (expired <==> Missing in stored.stamps && now >= stored.stamps[Missing] + default)
      ensures perResource.Some? ==> (expired <==> Missing in stored.stamps && now >= stored.stamps[Missing] + perResource.value)
    {
      if Missing !in stored.stamps {
        return false;
      }
      var period := default;
      if perResource.Some? {
        period := perResource.value;
      }
      return now >= stored.stamps[Missing] + period;
    }

    /** `bridge_mount_reconcile` */
    method BridgeMountReconcile(tick: Tick) returns (outcome: Outcome)
      modifies this
      ensures TickStep(old(stored), tick, stored, outcome)
      ensures state == if outcome == AtSunset || outcome == TargetMissing then Terminated else stored.state
    {
      state := stored.state;
      if Active !in stored.stamps {
        return Skipped;
      }
      if state == Terminated {
        return Skipped;
      }
      if tick.sunset.Some? && tick.sunset.value <= tick.now {
        Uninstall(tick.uninstallFails);
        SetState(Terminated, tick.written);
        return AtSunset;
      }
      var targetExists := tick.probe == Present;
      if state == Missing {
        if targetExists {
          SetState(Preparing, tick.written);
        } else {
          var expired := MissingGracePeriodExpired(tick.gracePeriod, tick.defaultGracePeriod, tick.now);
          if expired {
            Uninstall(tick.uninstallFails);
            SetState(Terminated, tick.written);
            return TargetMissing;
          }
        }
      } else {
        if !targetExists {
          Uninstall(tick.uninstallFails);
          SetState(Missing, tick.written);
        } else {
          Operate(tick.provider, tick.written);
        }
      }
      return Kept;
    }

    /**
      `bridge_mount_created`, which leaves a mount alone that has been active before; `false` where it raises to be
      retried.
     */
    method BridgeMountCreated(provider: Provider, at: int) returns (ok: bool)
      modifies this
      ensures CreatedStep(old(stored), provider, at, stored) && state == stored.state
      ensures ok <==> Active in old(stored).stamps || stored.state == Active
    {
      state := stored.state;
      if Active in stored.stamps {
        return true;
      }
      if state == Requested {
        Arrange(provider, at);
      }
      if state == Preparing {
        ok := Install(provider, at);
        if !ok {
          return;
        }
      }
      if state == Installing {
        ok := InstallOrActivate(provider, at);
        if !ok {
          return;
        }
      }
      if state == Error {
        Restore(provider, at);
      }
      if state == Restoring {
        Restore(provider, at);
      }
      return state == Active;
    }

    /** The branch of the create handler for a mount that is being installed. */
    method InstallOrActivate(provider: Provider, at: int) returns (ok: bool)
      requires state == Installing && stored.state == state
      modifies this
      ensures state == stored.state == AfterInstalling(Seen(provider, old(stored).shadow))
      ensures StampsGrow(old(stored), stored, at) && stored.shadow == old(stored).shadow
      ensures Active in stored.stamps <==> Active in old(stored).stamps || state == Active
      ensures !ok ==> state == Installing
      ensures ok ==> state != Installing
    {
      if !(stored.shadow && provider.prepared) {
        return false;
      }
      if provider.ready {
        SetState(Active, at);
        return true;
      }
      ok := Install(provider, at);
    }
  }

  /** No stamp is lost, none of MISSING is changed, and a new state is stamped. */
  ghost predicate StampsGrow(d: Record, d': Record, at: int) {
    && d'.name == d.name && d.stamps.Keys <= d'.stamps.Keys
    && (Missing in d'.stamps <==> Missing in d.stamps)
    && (forall s :: s in d.stamps ==> d'.stamps[s] == d.stamps[s] || d'.stamps[s] == at)
    && (d'.state != d.state ==> d'.state in d'.stamps && d'.stamps[d'.state] == at)
    && (Missing in d.stamps ==> d'.stamps[Missing] == d.stamps[Missing])
  }

  // ----- Runs -----

  ghost predicate TickStep(d: Record, tick: Tick, d': Record, outcome: Outcome) {
    if Active !in d.stamps || d.state == Terminated then outcome == Skipped && d' == d
    else if SunsetReached(tick) then outcome == AtSunset && d' == Uninstalled(d, tick.uninstallFails)
    else if d.state == Missing then
      if tick.probe == Present then outcome == Kept && d' == Written(d, Preparing, tick.written)
      else if GraceExpired(d, tick) then outcome == TargetMissing && d' == Uninstalled(d, tick.uninstallFails)
      else outcome == Kept && d' == d
    else if tick.probe != Present then
      outcome == Kept && d' == Written(Uninstalled(d, tick.uninstallFails), Missing, tick.written)
    else
      && outcome == Kept && StampsGrow(d, d', tick.written)
      && d'.state == Operated(d.state, Seen(tick.provider, ShadowWhenAsked(d, tick.provider)))
      && d'.shadow == ShadowAfterTick(d, tick.provider)
  }

  ghost predicate CreatedStep(d: Record, provider: Provider, at: int, d': Record) {
    if Active in d.stamps || !Operational(d.state) then d' == d
    else
      && StampsGrow(d, d', at) && (Active in d'.stamps ==> d'.state == Active)
      && d'.state == Created(d.state, Seen(provider, ShadowWhenAsked(d, provider)))
      && d'.shadow == ShadowWhenAsked(d, provider)
  }

  /** Somebody else may delete the shadow workload at any time. */
  datatype Event = Ticked(tick: Tick, outcome: Outcome) | Retried(provider: Provider, at: int) | ShadowDeleted

  ghost predicate Step(d: Record, e: Event, d': Record) {
    match e
    case Ticked(tick, outcome) => TickStep(d, tick, d', outcome)
    case Retried(provider, at) => CreatedStep(d, provider, at, d')
    case ShadowDeleted => d' == d.(shadow := false)
  }

  /** `events[n]` leads from `records[n]` to `records[n + 1]`. */
  ghost predicate Leads(records: seq<Record>, events: seq<Event>) {
    && |records| == |events| + 1
    && forall n {:trigger events[n]} :: 0 <= n < |events| ==> Step(records[n], events[n], records[n + 1])
  }

  /** A run from a new mount. */
  ghost predicate IsRun(records: seq<Record>, events: seq<Event>) {
    Leads(records, events) && records[0] == New(records[0].name)
  }

  ghost predicate LooksAndSeesNothing(e: Event) {
    e.Ticked? ==> SunsetReached(e.tick) || e.tick.probe != Present
  }

  /** Event `k` put the mount into MISSING; it has been there up to record `n`, no tick in between saw the target. */
  ghost predicate MissingSince(records: seq<Record>, events: seq<Event>, k: int, n: int)
    requires |records| == |events| + 1
  {
    && 0 <= k < n <= |events|
    && events[k].Ticked? && events[k].tick.probe != Present
    && records[k].state != Missing
    && (forall j {:trigger records[j]} :: k < j <= n ==> records[j].state == Missing)
    && (forall j {:trigger events[j]} :: k <= j < n ==> LooksAndSeesNothing(events[j]))
    && Missing in records[n].stamps && records[n].stamps[Missing] == events[k].tick.written
    && Active in records[n].stamps
  }

  lemma {:induction false} MissingHasStart(records: seq<Record>, events: seq<Event>, n: nat)
    requires IsRun(records, events) && n <= |events| && records[n].state == Missing
    ensures exists k :: MissingSince(records, events, k, n)
  {
    assert n > 0;
    assert Step(records[n - 1], events[n - 1], records[n]);
    if records[n - 1].state == Missing {
      MissingHasStart(records, events, n - 1);
      var k :| MissingSince(records, events, k, n - 1);
      StaysMissing(records, events, k, n - 1);
    } else {
      assert MissingSince(records, events, n - 1, n);
    }
  }

  lemma StaysMissing(records: seq<Record>, events: seq<Event>, k: int, n: nat)
    requires IsRun(records, events) && n < |events| && MissingSince(records, events, k, n)
    requires records[n + 1].state == Missing
    ensures MissingSince(records, events, k, n + 1)
    ensures records[n + 1].stamps == records[n].stamps
  {
    assert Step(records[n], events[n], records[n + 1]);
  }

  /**
    Safety: a mount is terminated for its missing target only if it has been in MISSING since some tick, no tick
    since then that looked for the target found it, and the grace period has passed since that entry was written.
   */
  lemma TerminatedOnlyAfterGrace(records: seq<Record>, events: seq<Event>, n: nat)
    requires IsRun(records, events) && n < |events|
    requires events[n].Ticked? && events[n].outcome == TargetMissing
    ensures !SunsetReached(events[n].tick) && events[n].tick.probe != Present
    ensures exists k ::
      (MissingSince(records, events, k, n) &&
       match events[n].tick.gracePeriod
       case Some(g) => events[n].tick.now >= events[k].tick.written + g
       case None => events[n].tick.now >= events[k].tick.written + events[n].tick.defaultGracePeriod)
  {
    assert Step(records[n], events[n], records[n + 1]);
    MissingHasStart(records, events, n);
    var k :| MissingSince(records, events, k, n);
  }

  /** From event `k` on the target stays away and no sunset comes. */
  ghost predicate AwayFrom(events: seq<Event>, k: nat) {
    forall j {:trigger events[j]} :: k <= j < |events| ==>
      events[j].Ticked? && events[j].tick.probe != Present && !SunsetReached(events[j].tick)
  }

  lemma {:induction false} StaysAway(records: seq<Record>, events: seq<Event>, k: nat, n: nat)
    requires IsRun(records, events) && k < n <= |events| && AwayFrom(events, k)
    requires Active in records[k].stamps && records[k].state != Missing
    ensures records[n].state == Missing && records[n].stamps == records[k].stamps[Missing := events[k].tick.written]
  {
    NeverStoredTerminated(records, events, k);
    assert Step(records[n - 1], events[n - 1], records[n]);
    if k < n - 1 {
      StaysAway(records, events, k, n - 1);
    }
  }

  /**
    If the target stays away from event `k` on, every later tick terminates the mount exactly if it comes at or
    after the deadline; hence the first such tick does.
   */
  lemma TerminatedAtDeadline(records: seq<Record>, events: seq<Event>, k: nat, n: nat)
    requires IsRun(records, events) && k < n < |events| && AwayFrom(events, k)
    requires Active in records[k].stamps && records[k].state != Missing
    ensures events[n].tick.gracePeriod.None? ==>
      (events[n].outcome == TargetMissing <==>
       events[n].tick.now >= events[k].tick.written + events[n].tick.defaultGracePeriod)
    ensures forall g :: events[n].tick.gracePeriod == Some(g) ==>
      (events[n].outcome == TargetMissing <==> events[n].tick.now >= events[k].tick.written + g)
  {
    StaysAway(records, events, k, n);
    assert Step(records[n], events[n], records[n + 1]);
  }

  /** A mount that recovers and loses its target again starts a new grace period: the old stamp does not count. */
  lemma ReentryRestartsGrace(records: seq<Record>, events: seq<Event>, k: nat, n: nat)
    requires IsRun(records, events) && k < n < |events|
    requires events[k].Ticked? && records[k].state == Missing && records[k + 1].state != Missing
    requires events[n].Ticked? && events[n].outcome == TargetMissing
    ensures exists m ::
      (k < m && MissingSince(records, events, m, n) &&
       match events[n].tick.gracePeriod
       case Some(g) => events[n].tick.now >= events[m].tick.written + g
       case None => events[n].tick.now >= events[m].tick.written + events[n].tick.defaultGracePeriod)
  {
    TerminatedOnlyAfterGrace(records, events, n);
    var m :| MissingSince(records, events, m, n) && events[n].tick.now >= events[m].tick.written + Grace(events[n].tick);
    assert !(m < k + 1 <= n);
  }

  /** A mount that has been ACTIVE counts as such for the timer ever after. */
  lemma {:induction false} ActiveIsStamped(records: seq<Record>, events: seq<Event>, m: nat, n: nat)
    requires IsRun(records, events) && m <= n <= |events| && records[m].state == Active
    ensures Active in records[n].stamps
  {
    if n > 0 {
      assert Step(records[n - 1], events[n - 1], records[n]);
      if m < n {
        ActiveIsStamped(records, events, m, n - 1);
      } else if records[n - 1].state == Active {
        ActiveIsStamped(records, events, n - 1, n - 1);
      }
    }
  }

  // ----- After the target is back -----

  /** Between its first activation and the end, without a shadow workload, and in a state that does not prepare one. */
  predicate Stranded(d: Record) {
    Active in d.stamps && !d.shadow && (d.state == Missing || d.state == Preparing || d.state == Installing)
  }

  /** Marking a mount as missing deletes its shadow workload, and nothing prepares it again: a mount stays stranded. */
  lemma {:induction false} StrandedForEver(records: seq<Record>, events: seq<Event>, n: nat)
    requires Leads(records, events) && n <= |events| && Stranded(records[0])
    ensures Stranded(records[n])
  {
    if n > 0 {
      StrandedForEver(records, events, n - 1);
      assert Step(records[n - 1], events[n - 1], records[n]);
    }
  }

  /** The target is there at every tick, and no sunset comes. */
  ghost predicate StaysThere(events: seq<Event>) {
    forall j {:trigger events[j]} :: 0 <= j < |events| && events[j].Ticked? ==>
      events[j].tick.probe == Present && !SunsetReached(events[j].tick)
  }

  /** Even if its target stays from then on and the provider has nothing to complain about, it remains in PREPARING. */
  lemma {:induction false} PreparingForEver(records: seq<Record>, events: seq<Event>, n: nat)
    requires Leads(records, events) && n <= |events| && StaysThere(events)
    requires Stranded(records[0]) && records[0].state == Preparing
    ensures records[n].state == Preparing
  {
    if n > 0 {
      PreparingForEver(records, events, n - 1);
      StrandedForEver(records, events, n - 1);
      assert Step(records[n - 1], events[n - 1], records[n]);
    }
  }

  predicate Healthy(p: Provider) {
    p.preparation.Succeeds? && p.prepared && p.podsReady && p.installs && p.ready && p.intact
  }

  ghost predicate HealthyTick(e: Event) {
    e.Ticked? && !SunsetReached(e.tick) && e.tick.probe == Present && Healthy(e.tick.provider)
  }

  /**
    Two ticks that find the target there and the provider in order make a mount ACTIVE that has been active before,
    if and only if it is not stranded.
   */
  lemma TwoTicksRecoverIff(d: Record, e: Event, d1: Record, e1: Event, d2: Record)
    requires Active in d.stamps && d.state != Terminated && DuplicateName(d.name) == LookedUpName(d.name)
    requires HealthyTick(e) && HealthyTick(e1) && Step(d, e, d1) && Step(d1, e1, d2)
    ensures d2.state == Active <==> !Stranded(d)
  {
  }

  /** Some run of events makes the mount ACTIVE again. */
  ghost predicate CanBecomeActive(d: Record) {
    exists records: seq<Record>, events: seq<Event> :: Reaches(d, records, events)
  }

  ghost predicate Reaches(d: Record, records: seq<Record>, events: seq<Event>) {
    Leads(records, events) && records[0] == d && records[|events|].state == Active
  }

  lemma StrandedNeverActive(d: Record)
    requires Stranded(d)
    ensures !CanBecomeActive(d)
  {
    forall records: seq<Record>, events: seq<Event> | Leads(records, events) && records[0] == d
      ensures !Reaches(d, records, events)
    {
      StrandedForEver(records, events, |events|);
    }
  }

  function GoodTick(): Tick {
    Tick(0, 0, None, None, 0, Present, false, Provider(Succeeds, true, true, true, true, true))
  }

  /** A missing mount can become ACTIVE again if and only if its shadow workload is still there. */
  lemma MissingRecoversIff(d: Record)
    requires d.state == Missing && Active in d.stamps
    ensures CanBecomeActive(d) <==> d.shadow
  {
    if !d.shadow {
      StrandedNeverActive(d);
    } else {
      var d1 := Written(d, Preparing, 0);
      var d2 := Written(Written(d1, Installing, 0), Active, 0);
      var e := Ticked(GoodTick(), Kept);
      var records, events := [d, d1, d2], [e, e];
      assert Step(records[0], events[0], records[1]);
      assert Step(records[1], events[1], records[2]);
      assert Reaches(d, records, events);
    }
  }

  /**
    A tick that finds the target missing leaves a mount from which ACTIVE can be reached again if and only if the
    shadow workload was there and could not be deleted.
   */
  lemma RecoverableIffUninstallFails(d: Record, e: Event, d': Record)
    requires e.Ticked? && Step(d, e, d') && d.state != Missing && d'.state == Missing
    ensures CanBecomeActive(d') <==> d.shadow && e.tick.uninstallFails
  {
    MissingRecoversIff(d');
  }

  /** A mount whose target has a name of more than 56 characters never finds its shadow, and never becomes ACTIVE. */
  lemma {:induction false} LongNameNeverActive(records: seq<Record>, events: seq<Event>, n: nat)
    requires IsRun(records, events) && n <= |events| && |records[0].name| > 56
    ensures records[n].name == records[0].name && !records[n].shadow
    ensures records[n].state != Active && Active !in records[n].stamps
  {
    FoundIff(records[0].name);
    if n > 0 {
      LongNameNeverActive(records, events, n - 1);
      assert Step(records[n - 1], events[n - 1], records[n]);
    }
  }

  /** Nothing but the timer ends a mount, and the stored state is never TERMINATED, so its own branch is never taken. */
  lemma {:induction false} NeverStoredTerminated(records: seq<Record>, events: seq<Event>, n: nat)
    requires IsRun(records, events) && n <= |events|
    ensures records[n].state != Terminated
  {
    if n > 0 {
      NeverStoredTerminated(records, events, n - 1);
      assert Step(records[n - 1], events[n - 1], records[n]);
    }
  }
}

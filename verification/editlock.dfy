/**
  The read/read/write section of `_edit_proxyroutes_configmap` under its module-level lock, one step for every
  stretch of code between two awaits, with any number of tasks interleaved.
 */
module EditLock {
  import opened Wrappers
  import opened Encoding
  import opened Table
  import opened Objects
  import opened StowawayProvider

  type Routes = map<string, string>

  datatype Edit = AddRoute(key: string, dest: string) | RemoveRoute(dest: string)

  /** Where a task stands: between two awaits it holds what it has read so far. */
  datatype Phase =
    | Waiting
    | Locked
    | HasRead(routes: Routes)
    | HasPort(routes: Routes, port: nat)
    | Written(result: nat)
    | Returned(result: nat)
    | Raised

  datatype Task = Task(edit: Edit, phase: Phase)

  /** An edit in the order in which the lock was taken, or a collection. */
  datatype Entry = Edited(task: nat, edit: Edit) | CollectedBy(bridges: seq<Bridge>)

  datatype State = State(cm: Routes, lock: Option<nat>, tasks: map<nat, Task>, log: seq<Entry>)

  /** The last match in the dictionary's iteration order. */
  ghost function Pick(routes: Routes, dest: string): Option<string> {
    if exists k :: k in routes && DestOf(routes[k]) == dest
    then var k :| k in routes && DestOf(routes[k]) == dest; Some(k)
    else None
  }

  // ----- Serial executions -----

  ghost function AfterEdit(routes: Routes, edit: Edit): Routes {
    match edit
    case AddRoute(key, dest) =>
      (match FreePort(TakenPorts(routes))
       case Some(p) => routes[key := RouteValueOf(dest, p)]
       case None => routes)
    case RemoveRoute(dest) =>
      (match Pick(routes, dest)
       case Some(k) => routes - {k}
       case None => routes)
  }

  /** The port the edit returns. */
  ghost function ResultOf(routes: Routes, edit: Edit): nat {
    match edit
    case AddRoute(key, dest) =>
      (match FreePort(TakenPorts(routes))
       case Some(p) => p
       case None => 0)
    case RemoveRoute(dest) =>
      (match Pick(routes, dest)
       case Some(k) => ProxyPortOf(routes[k])
       case None => 0)
  }

  ghost function AfterEntry(routes: Routes, entry: Entry): Routes {
    match entry
    case Edited(_, edit) => AfterEdit(routes, edit)
    case CollectedBy(bridges) => FinalRoutes(routes, bridges)
  }

  ghost function Serial(init: Routes, log: seq<Entry>): Routes {
    if log == [] then init else AfterEntry(Serial(init, log[..|log| - 1]), log[|log| - 1])
  }

  // ----- The interleaved steps -----

  function SetPhase(s: State, i: nat, phase: Phase): State
    requires i in s.tasks
  {
    s.(tasks := s.tasks[i := s.tasks[i].(phase := phase)])
  }

  ghost predicate Spawns(s: State, s': State, i: nat, edit: Edit) {
    i !in s.tasks && s' == s.(tasks := s.tasks[i := Task(edit, Waiting)])
  }

  ghost predicate Acquires(s: State, s': State, i: nat) {
    && i in s.tasks && s.tasks[i].phase.Waiting? && s.lock.None?
    && s' == SetPhase(s, i, Locked).(lock := Some(i), log := s.log + [Edited(i, s.tasks[i].edit)])
  }

  ghost predicate Reads(s: State, s': State, i: nat) {
    && i in s.tasks && s.tasks[i].phase.Locked?
    && s' == SetPhase(s, i, HasRead(s.cm))
  }

  /** `_get_free_proxyroute_port` reads the ConfigMap a second time. */
  ghost predicate ChoosesPort(s: State, s': State, i: nat) {
    && i in s.tasks && s.tasks[i].phase.HasRead? && s.tasks[i].edit.AddRoute?
    && FreePort(TakenPorts(s.cm)).Some?
    && s' == SetPhase(s, i, HasPort(s.tasks[i].phase.routes, FreePort(TakenPorts(s.cm)).value))
  }

  /** The add patches: entries of the body are merged into the stored ones. The drawn key is not in use. */
  ghost predicate Patches(s: State, s': State, i: nat) {
    && i in s.tasks && s.tasks[i].phase.HasPort? && s.tasks[i].edit.AddRoute?
    && var Task(AddRoute(key, dest), HasPort(routes, port)) := s.tasks[i];
    && key !in s.cm && ',' !in dest
    && s' == SetPhase(s, i, Written(port)).(cm := s.cm + routes[key := RouteValueOf(dest, port)])
  }

  /** The remove replaces, if it found a route. */
  ghost predicate Replaces(s: State, s': State, i: nat) {
    && i in s.tasks && s.tasks[i].phase.HasRead? && s.tasks[i].edit.RemoveRoute?
    && var Task(RemoveRoute(dest), HasRead(routes)) := s.tasks[i];
    && match Pick(routes, dest)
       case Some(k) => s' == SetPhase(s, i, Written(ProxyPortOf(routes[k]))).(cm := routes - {k})
       case None => s' == SetPhase(s, i, Written(0))
  }

  ghost predicate Releases(s: State, s': State, i: nat) {
    && i in s.tasks && s.tasks[i].phase.Written?
    && s' == SetPhase(s, i, Returned(s.tasks[i].phase.result)).(lock := None)
  }

  /** An exception before the write, of the allocator or of the API, leaves the section and gives up the lock. */
  ghost predicate Raises(s: State, s': State, i: nat) {
    && i in s.tasks && InSection(s.tasks[i].phase) && !s.tasks[i].phase.Written? && |s.log| > 0
    && s' == SetPhase(s, i, Raised).(lock := None, log := s.log[..|s.log| - 1])
  }

  /** The collector is outside the lock; it is taken as one step that finds the lock free. */
  ghost predicate CollectsAll(s: State, s': State, bridges: seq<Bridge>) {
    && s.lock.None? && (forall k :: k in s.cm ==> !JudgeRoute(bridges, k, s.cm[k]).Raises?)
    && s' == s.(cm := FinalRoutes(s.cm, bridges), log := s.log + [CollectedBy(bridges)])
  }

  ghost predicate TaskStep(s: State, s': State, i: nat) {
    || Acquires(s, s', i) || Reads(s, s', i) || ChoosesPort(s, s', i) || Patches(s, s', i)
    || Replaces(s, s', i) || Releases(s, s', i) || Raises(s, s', i)
  }

  ghost predicate Step(s: State, s': State) {
    || (exists i, edit :: Spawns(s, s', i, edit))
    || (exists i :: TaskStep(s, s', i))
    || (exists bridges :: CollectsAll(s, s', bridges))
  }

  ghost predicate Initial(s: State) {
    s.lock.None? && s.tasks == map[] && s.log == []
  }

  ghost predicate StepAt(run: seq<State>, n: nat) { 0 < n < |run| && Step(run[n - 1], run[n]) }

  ghost predicate Behaviour(run: seq<State>) {
    && |run| > 0 && Initial(run[0])
    && forall n :: 0 < n < |run| ==> StepAt(run, n)
  }

  lemma PrefixBehaves(run: seq<State>)
    requires Behaviour(run) && |run| > 1
    ensures Behaviour(run[..|run| - 1]) && Step(run[|run| - 2], run[|run| - 1])
  {
    var prefix := run[..|run| - 1];
    forall n | 0 < n < |prefix|
      ensures StepAt(prefix, n)
    {
      assert StepAt(run, n);
    }
    assert StepAt(run, |run| - 1);
  }

  // ----- The invariant -----

  predicate InSection(phase: Phase) { phase.Locked? || phase.HasRead? || phase.HasPort? || phase.Written? }

  /** The edits whose write has happened. */
  ghost function Committed(s: State): seq<Entry> {
    if s.lock.Some? && |s.log| > 0 && s.lock.value in s.tasks && !s.tasks[s.lock.value].phase.Written?
    then s.log[..|s.log| - 1] else s.log
  }

  ghost predicate LockOk(s: State) {
    && (forall i :: i in s.tasks && InSection(s.tasks[i].phase) ==> s.lock == Some(i))
    && (s.lock.Some? ==>
        && s.lock.value in s.tasks && InSection(s.tasks[s.lock.value].phase)
        && |s.log| > 0 && s.log[|s.log| - 1] == Edited(s.lock.value, s.tasks[s.lock.value].edit))
  }

  ghost predicate ReadOk(s: State, task: Task) {
    && (task.phase.HasRead? || task.phase.HasPort? ==> task.phase.routes == s.cm)
    && (task.phase.HasPort? ==> task.edit.AddRoute? && FreePort(TakenPorts(s.cm)) == Some(task.phase.port))
  }

  /** The task's result is the one of its edit at its place `n` in the serial execution. */
  ghost predicate CommittedAt(init: Routes, log: seq<Entry>, i: nat, edit: Edit, result: nat, n: nat) {
    n < |log| && log[n] == Edited(i, edit) && result == ResultOf(Serial(init, log[..n]), edit)
  }

  ghost predicate ResultsOk(init: Routes, s: State) {
    forall i :: i in s.tasks && (s.tasks[i].phase.Returned? || s.tasks[i].phase.Written?) ==>
      exists n :: CommittedAt(init, Committed(s), i, s.tasks[i].edit, s.tasks[i].phase.result, n)
  }

  ghost predicate Inv(init: Routes, s: State) {
    && s.cm == Serial(init, Committed(s))
    && LockOk(s)
    && (forall i :: i in s.tasks ==> ReadOk(s, s.tasks[i]))
    && ResultsOk(init, s)
  }

  /** Every edit in the log is that of a task which has taken the lock, and of no second one. */
  ghost predicate LogOk(s: State) {
    && (forall n {:trigger s.log[n]} :: 0 <= n < |s.log| && s.log[n].Edited? ==> LoggedTask(s, s.log[n]))
    && (forall n, m {:trigger s.log[n], s.log[m]} :: 0 <= n < m < |s.log| && s.log[n].Edited? && s.log[m].Edited? ==>
        s.log[n].task != s.log[m].task)
  }

  ghost predicate LoggedTask(s: State, entry: Entry)
    requires entry.Edited?
  {
    && entry.task in s.tasks && s.tasks[entry.task].edit == entry.edit
    && (InSection(s.tasks[entry.task].phase) || s.tasks[entry.task].phase.Returned?)
  }

  /** The committed edits are exactly those that tasks have written, each of them once. */
  ghost predicate CommittedByTasks(s: State) {
    && (forall n {:trigger Committed(s)[n]} :: 0 <= n < |Committed(s)| && Committed(s)[n].Edited? ==>
        && Committed(s)[n].task in s.tasks && s.tasks[Committed(s)[n].task].edit == Committed(s)[n].edit
        && (s.tasks[Committed(s)[n].task].phase.Written? || s.tasks[Committed(s)[n].task].phase.Returned?))
    && (forall n, m {:trigger Committed(s)[n], Committed(s)[m]} ::
        0 <= n < m < |Committed(s)| && Committed(s)[n].Edited? && Committed(s)[m].Edited? ==>
        Committed(s)[n].task != Committed(s)[m].task)
  }

  lemma LogMeansCommitted(s: State)
    requires LockOk(s) && LogOk(s)
    ensures CommittedByTasks(s)
  {
    var c := Committed(s);
    assert forall n :: 0 <= n < |c| ==> c[n] == s.log[n];
    forall n | 0 <= n < |c| && c[n].Edited?
      ensures s.tasks[c[n].task].phase.Written? || s.tasks[c[n].task].phase.Returned?
    {
      assert LoggedTask(s, s.log[n]);
      var last := s.log[|s.log| - 1];
      assert |c| < |s.log| ==> last.Edited? && last.task == s.lock.value && last.task != c[n].task;
    }
  }

  /** A step of task `i` that leaves it in the section, or returned, and the log as it is. */
  lemma LogStays(s: State, s': State, i: nat)
    requires LogOk(s) && s'.log == s.log && s.tasks.Keys <= s'.tasks.Keys
    requires forall j :: j in s.tasks && j != i ==> s'.tasks[j] == s.tasks[j]
    requires i in s.tasks ==> s'.tasks[i].edit == s.tasks[i].edit && (InSection(s'.tasks[i].phase) || s'.tasks[i].phase.Returned?)
    ensures LogOk(s')
  {
    forall n | 0 <= n < |s'.log| && s'.log[n].Edited?
      ensures LoggedTask(s', s'.log[n])
    {
      assert LoggedTask(s, s.log[n]);
    }
  }

  lemma LogAfterAcquire(s: State, s': State, i: nat)
    requires LogOk(s) && Acquires(s, s', i)
    ensures LogOk(s')
  {
    forall n | 0 <= n < |s'.log| && s'.log[n].Edited?
      ensures LoggedTask(s', s'.log[n]) && (n < |s.log| ==> s.log[n].task != i)
    {
      if n < |s.log| {
        assert s'.log[n] == s.log[n] && LoggedTask(s, s.log[n]);
      }
    }
  }

  lemma LogAfterRaise(s: State, s': State, i: nat)
    requires LogOk(s) && LockOk(s) && Raises(s, s', i)
    ensures LogOk(s')
  {
    var last := s.log[|s.log| - 1];
    assert last == Edited(i, s.tasks[i].edit);
    forall n | 0 <= n < |s'.log| && s'.log[n].Edited?
      ensures LoggedTask(s', s'.log[n])
    {
      assert s'.log[n] == s.log[n] && LoggedTask(s, s.log[n]);
      assert s.log[n].task != last.task;
    }
  }

  lemma LogAfterCollect(s: State, s': State, bridges: seq<Bridge>)
    requires LogOk(s) && CollectsAll(s, s', bridges)
    ensures LogOk(s')
  {
    forall n | 0 <= n < |s'.log| && s'.log[n].Edited?
      ensures LoggedTask(s', s'.log[n])
    {
      assert s'.log[n] == s.log[n] && LoggedTask(s, s.log[n]);
    }
  }

  lemma CommittedGrows(init: Routes, log: seq<Entry>, log': seq<Entry>, i: nat, edit: Edit, result: nat, n: nat)
    requires log <= log' && CommittedAt(init, log, i, edit, result, n)
    ensures CommittedAt(init, log', i, edit, result, n)
  {
    assert log'[..n] == log[..n];
  }

  /** If the committed log only grows and no new result appears, results stay justified. */
  lemma ResultsStay(init: Routes, s: State, s': State)
    requires ResultsOk(init, s) && Committed(s) <= Committed(s')
    requires forall i :: i in s'.tasks && (s'.tasks[i].phase.Returned? || s'.tasks[i].phase.Written?) ==>
      i in s.tasks && s.tasks[i].edit == s'.tasks[i].edit
      && (s.tasks[i].phase.Returned? || s.tasks[i].phase.Written?)
      && s.tasks[i].phase.result == s'.tasks[i].phase.result
    ensures ResultsOk(init, s')
  {
    forall i | i in s'.tasks && (s'.tasks[i].phase.Returned? || s'.tasks[i].phase.Written?)
      ensures exists n :: CommittedAt(init, Committed(s'), i, s'.tasks[i].edit, s'.tasks[i].phase.result, n)
    {
      var n :| CommittedAt(init, Committed(s), i, s.tasks[i].edit, s.tasks[i].phase.result, n);
      CommittedGrows(init, Committed(s), Committed(s'), i, s.tasks[i].edit, s.tasks[i].phase.result, n);
    }
  }

  lemma AcquireKeepsInv(init: Routes, s: State, s': State, i: nat)
    requires Inv(init, s) && Acquires(s, s', i)
    ensures Inv(init, s')
  {
    assert s'.log[..|s'.log| - 1] == s.log;
    assert Committed(s') == Committed(s);
    ResultsStay(init, s, s');
  }

  lemma ReadKeepsInv(init: Routes, s: State, s': State, i: nat)
    requires Inv(init, s) && Reads(s, s', i)
    ensures Inv(init, s')
  {
    assert s'.lock == s.lock == Some(i) && s'.log == s.log && s'.cm == s.cm;
    assert forall j :: j in s'.tasks && j != i ==> s'.tasks[j] == s.tasks[j];
    assert LockOk(s');
    assert Committed(s') == Committed(s);
    ResultsStay(init, s, s');
  }

  lemma ChooseKeepsInv(init: Routes, s: State, s': State, i: nat)
    requires Inv(init, s) && ChoosesPort(s, s', i)
    ensures Inv(init, s')
  {
    assert Committed(s') == Committed(s);
    ResultsStay(init, s, s');
  }

  lemma LeaveKeepsInv(init: Routes, s: State, s': State, i: nat)
    requires Inv(init, s)
    requires Releases(s, s', i) || Raises(s, s', i)
    ensures Inv(init, s')
  {
    assert Committed(s') == Committed(s);
    ResultsStay(init, s, s');
  }

  lemma PatchEffect(init: Routes, s: State, s': State, i: nat)
    requires Inv(init, s) && Patches(s, s', i)
    ensures s'.cm == AfterEdit(s.cm, s.tasks[i].edit)
    ensures s' == SetPhase(s, i, Written(ResultOf(s.cm, s.tasks[i].edit))).(cm := s'.cm)
  {
    var Task(AddRoute(key, dest), HasPort(routes, port)) := s.tasks[i];
    assert routes == s.cm;
    assert s.cm + s.cm[key := RouteValueOf(dest, port)] == s.cm[key := RouteValueOf(dest, port)];
  }

  lemma ReplaceEffect(init: Routes, s: State, s': State, i: nat)
    requires Inv(init, s) && Replaces(s, s', i)
    ensures s'.cm == AfterEdit(s.cm, s.tasks[i].edit)
    ensures s' == SetPhase(s, i, Written(ResultOf(s.cm, s.tasks[i].edit))).(cm := s'.cm)
  {
    assert s.tasks[i].phase.routes == s.cm;
  }

  lemma CommittedByWrite(init: Routes, s: State, s': State, i: nat)
    requires Inv(init, s) && i in s.tasks && InSection(s.tasks[i].phase) && !s.tasks[i].phase.Written?
    requires s' == SetPhase(s, i, Written(ResultOf(s.cm, s.tasks[i].edit))).(cm := AfterEdit(s.cm, s.tasks[i].edit))
    ensures Committed(s) == s.log[..|s.log| - 1] && Committed(s') == s.log
    ensures s'.cm == Serial(init, s.log)
    ensures CommittedAt(init, s.log, i, s.tasks[i].edit, ResultOf(s.cm, s.tasks[i].edit), |s.log| - 1)
  {
  }

  /** The write of the lock holder is the serial effect of its edit. */
  lemma WriteKeepsInv(init: Routes, s: State, s': State, i: nat)
    requires Inv(init, s) && i in s.tasks && InSection(s.tasks[i].phase) && !s.tasks[i].phase.Written?
    requires s' == SetPhase(s, i, Written(ResultOf(s.cm, s.tasks[i].edit))).(cm := AfterEdit(s.cm, s.tasks[i].edit))
    ensures Inv(init, s')
  {
    CommittedByWrite(init, s, s', i);
    forall j | j in s'.tasks && (s'.tasks[j].phase.Returned? || s'.tasks[j].phase.Written?)
      ensures exists m :: CommittedAt(init, Committed(s'), j, s'.tasks[j].edit, s'.tasks[j].phase.result, m)
    {
      if j != i {
        var m :| CommittedAt(init, Committed(s), j, s.tasks[j].edit, s.tasks[j].phase.result, m);
        CommittedGrows(init, Committed(s), Committed(s'), j, s.tasks[j].edit, s.tasks[j].phase.result, m);
      }
    }
  }

  lemma SpawnKeepsInv(init: Routes, s: State, s': State, i: nat, edit: Edit)
    requires Inv(init, s) && Spawns(s, s', i, edit)
    ensures Inv(init, s')
  {
    assert s'.lock == s.lock && s'.log == s.log && s'.cm == s.cm;
    assert forall j :: j in s'.tasks && j != i ==> s'.tasks[j] == s.tasks[j];
    assert LockOk(s');
    assert Committed(s') == Committed(s);
    ResultsStay(init, s, s');
  }

  lemma CollectKeepsInv(init: Routes, s: State, s': State, bridges: seq<Bridge>)
    requires Inv(init, s) && CollectsAll(s, s', bridges)
    ensures Inv(init, s')
  {
    assert Committed(s) == s.log && Committed(s') == s'.log;
    SerialAppend(init, s.log, CollectedBy(bridges));
    ResultsStay(init, s, s');
  }

  lemma SerialAppend(init: Routes, log: seq<Entry>, entry: Entry)
    ensures Serial(init, log + [entry]) == AfterEntry(Serial(init, log), entry)
  {
    assert (log + [entry])[..|log|] == log;
  }

  lemma StepKeepsInv(init: Routes, s: State, s': State)
    requires Inv(init, s) && Step(s, s')
    ensures Inv(init, s')
  {
    if i, edit :| Spawns(s, s', i, edit) {
      SpawnKeepsInv(init, s, s', i, edit);
    } else if bridges :| CollectsAll(s, s', bridges) {
      CollectKeepsInv(init, s, s', bridges);
    } else {
      var i :| TaskStep(s, s', i);
      if Patches(s, s', i) {
        PatchEffect(init, s, s', i);
        WriteKeepsInv(init, s, s', i);
      } else if Replaces(s, s', i) {
        ReplaceEffect(init, s, s', i);
        WriteKeepsInv(init, s, s', i);
      } else if Acquires(s, s', i) {
        AcquireKeepsInv(init, s, s', i);
      } else if Reads(s, s', i) {
        ReadKeepsInv(init, s, s', i);
      } else if ChoosesPort(s, s', i) {
        ChooseKeepsInv(init, s, s', i);
      } else {
        LeaveKeepsInv(init, s, s', i);
      }
    }
  }

  lemma StepKeepsLog(init: Routes, s: State, s': State)
    requires Inv(init, s) && LogOk(s) && Step(s, s')
    ensures LogOk(s')
  {
    if i, edit :| Spawns(s, s', i, edit) {
      LogStays(s, s', i);
    } else if bridges :| CollectsAll(s, s', bridges) {
      LogAfterCollect(s, s', bridges);
    } else {
      var i :| TaskStep(s, s', i);
      if Acquires(s, s', i) {
        LogAfterAcquire(s, s', i);
      } else if Raises(s, s', i) {
        LogAfterRaise(s, s', i);
      } else {
        TaskKeepsLog(s, s', i);
      }
    }
  }

  lemma TaskKeepsLog(s: State, s': State, i: nat)
    requires LogOk(s) && TaskStep(s, s', i) && !Acquires(s, s', i) && !Raises(s, s', i)
    ensures LogOk(s')
  {
    if Replaces(s, s', i) {
      var Task(RemoveRoute(dest), HasRead(routes)) := s.tasks[i];
      assert Pick(routes, dest).Some? || Pick(routes, dest).None?;
    }
    LogStays(s, s', i);
  }

  lemma {:induction false} InvHolds(run: seq<State>)
    requires Behaviour(run)
    ensures Inv(run[0].cm, run[|run| - 1]) && LogOk(run[|run| - 1])
  {
    if |run| > 1 {
      var prefix := run[..|run| - 1];
      PrefixBehaves(run);
      InvHolds(prefix);
      StepKeepsInv(run[0].cm, run[|run| - 2], run[|run| - 1]);
      StepKeepsLog(run[0].cm, run[|run| - 2], run[|run| - 1]);
    }
  }

  /**
    Serializability: at every moment of every interleaving the ConfigMap is the result of running the committed edits
    one after the other in the order in which they took the lock; the committed edits are those that tasks have
    written, each of them once; and every task that returned got the port which its edit yields at its place in that
    order.
   */
  lemma Serializable(run: seq<State>)
    requires Behaviour(run)
    ensures var init, s := run[0].cm, run[|run| - 1];
      s.cm == Serial(init, Committed(s)) && CommittedByTasks(s) && ResultsOk(init, s)
  {
    InvHolds(run);
    LogMeansCommitted(run[|run| - 1]);
  }

  // ----- Ports -----

  ghost predicate PortsOk(routes: Routes) {
    && (forall k :: k in routes ==> FIRST_PORT <= ProxyPortOf(routes[k]) < END_PORT)
    && (forall k, l :: k in routes && l in routes && k != l ==> ProxyPortOf(routes[k]) != ProxyPortOf(routes[l]))
  }

  lemma PatchKeepsPorts(routes: Routes, key: string, dest: string, p: nat)
    requires PortsOk(routes) && key !in routes && ',' !in dest && FreePort(TakenPorts(routes)) == Some(p)
    ensures PortsOk(routes[key := RouteValueOf(dest, p)])
  {
    ValueDecodes(dest, p);
    forall k | k in routes
      ensures ProxyPortOf(routes[k]) != p
    {
      assert ProxyPortOf(routes[k]) in TakenPorts(routes);
    }
  }

  lemma TaskStepKeepsPorts(init: Routes, s: State, s': State, i: nat)
    requires Inv(init, s) && TaskStep(s, s', i) && PortsOk(s.cm)
    ensures PortsOk(s'.cm)
  {
    if Patches(s, s', i) {
      var Task(AddRoute(key, dest), HasPort(routes, port)) := s.tasks[i];
      PatchKeepsPorts(s.cm, key, dest, port);
      assert s'.cm == s.cm[key := RouteValueOf(dest, port)];
    } else if Replaces(s, s', i) {
      ShrinkKeepsPorts(s.cm, s'.cm);
    }
  }

  lemma StepKeepsPorts(init: Routes, s: State, s': State)
    requires Inv(init, s) && Step(s, s') && PortsOk(s.cm)
    ensures PortsOk(s'.cm)
  {
    if i :| TaskStep(s, s', i) {
      TaskStepKeepsPorts(init, s, s', i);
    } else if bridges :| CollectsAll(s, s', bridges) {
      ShrinkKeepsPorts(s.cm, s'.cm);
    } else {
      assert exists i, edit :: Spawns(s, s', i, edit);
    }
  }

  lemma ShrinkKeepsPorts(routes: Routes, routes': Routes)
    requires PortsOk(routes) && forall k :: k in routes' ==> k in routes && routes'[k] == routes[k]
    ensures PortsOk(routes')
  {
  }

  /** In every interleaving the stored proxy ports stay pairwise distinct and within 10000..59999. */
  lemma {:induction false} PortsStayDistinct(run: seq<State>)
    requires Behaviour(run) && PortsOk(run[0].cm)
    ensures PortsOk(run[|run| - 1].cm)
  {
    if |run| > 1 {
      var prefix := run[..|run| - 1];
      PrefixBehaves(run);
      PortsStayDistinct(prefix);
      InvHolds(prefix);
      StepKeepsPorts(run[0].cm, run[|run| - 2], run[|run| - 1]);
    }
  }

  // ----- What the edits do -----

  /** What a remove that returns this port does. */
  ghost predicate RemovesOne(routes: Routes, dest: string, routes': Routes, port: nat) {
    exists picked :: RemovesPicked(routes, dest, routes', port, picked)
  }

  /** A remove in a serial execution takes away one route of the destination and returns its port, or finds none. */
  lemma SerialRemove(routes: Routes, dest: string)
    ensures RemovesOne(routes, dest, AfterEdit(routes, RemoveRoute(dest)), ResultOf(routes, RemoveRoute(dest)))
  {
    assert RemovesPicked(routes, dest, AfterEdit(routes, RemoveRoute(dest)), ResultOf(routes, RemoveRoute(dest)),
                         Pick(routes, dest));
  }

  /** An add enters the route on the least free port and returns that port, or changes nothing if there is none. */
  lemma SerialAdd(routes: Routes, key: string, dest: string)
    ensures exists added :: (AddsLeastFree(routes, key, dest, AfterEdit(routes, AddRoute(key, dest)), added)
      && ResultOf(routes, AddRoute(key, dest)) == if added.Some? then added.value else 0)
  {
    LeastFree(routes, key, dest);
    assert AddsLeastFree(routes, key, dest, AfterEdit(routes, AddRoute(key, dest)), FreePort(TakenPorts(routes)));
  }

  /** The same of the locked writes themselves, whatever other tasks have done in between. */
  lemma LockedRemove(init: Routes, s: State, s': State, i: nat)
    requires Inv(init, s) && Replaces(s, s', i)
    ensures s'.tasks[i].phase.Written? && RemovesOne(s.cm, s.tasks[i].edit.dest, s'.cm, s'.tasks[i].phase.result)
  {
    ReplaceEffect(init, s, s', i);
    SerialRemove(s.cm, s.tasks[i].edit.dest);
  }

  lemma LockedAdd(init: Routes, s: State, s': State, i: nat)
    requires Inv(init, s) && Patches(s, s', i)
    ensures s'.tasks[i].phase.Written? &&
      AddsLeastFree(s.cm, s.tasks[i].edit.key, s.tasks[i].edit.dest, s'.cm, Some(s'.tasks[i].phase.result))
  {
    PatchEffect(init, s, s', i);
    LeastFree(s.cm, s.tasks[i].edit.key, s.tasks[i].edit.dest);
  }

  /** A collection takes away exactly the routes that are debris, and raises for none. */
  lemma CollectEffect(s: State, s': State, bridges: seq<Bridge>)
    requires CollectsAll(s, s', bridges)
    ensures s'.cm.Keys <= s.cm.Keys
    ensures forall k :: k in s.cm ==>
      if k in s'.cm then s'.cm[k] == s.cm[k] && JudgeRoute(bridges, k, s.cm[k]).Kept? else JudgeRoute(bridges, k, s.cm[k]).Debris?
  {
  }

  /** `s'` is reached by this step, or by an exception if no port is free. */
  ghost predicate Goes(s: State, s': State, i: nat) {
    i in s.tasks && i in s'.tasks &&
    match s.tasks[i].phase
    case Waiting => Acquires(s, s', i) && s'.tasks[i].phase == Locked
    case Locked => Reads(s, s', i) && s'.tasks[i].phase == HasRead(s.cm)
    case HasRead(routes) =>
      if s.tasks[i].edit.RemoveRoute? then Replaces(s, s', i) && s'.tasks[i].phase.Written?
      else if exists p :: 10000 <= p < 60000 && !PortStored(s.cm, p) then ChoosesPort(s, s', i) && s'.tasks[i].phase.HasPort?
      else Raises(s, s', i) && s'.lock.None?
    case HasPort(_, _) => Patches(s, s', i) && s'.tasks[i].phase.Written?
    case Written(result) => Releases(s, s', i) && s'.tasks[i].phase == Returned(result) && s'.lock.None?
    case _ => false
  }

  lemma GoesWaiting(s: State, i: nat) returns (s': State)
    requires i in s.tasks && s.tasks[i].phase.Waiting? && s.lock.None?
    ensures Goes(s, s', i)
  {
    s' := SetPhase(s, i, Locked).(lock := Some(i), log := s.log + [Edited(i, s.tasks[i].edit)]);
  }

  lemma GoesOn(init: Routes, s: State, i: nat) returns (s': State)
    requires Inv(init, s) && i in s.tasks && s.tasks[i].phase.HasRead?
    ensures Goes(s, s', i)
  {
    match s.tasks[i].edit
    case RemoveRoute(dest) =>
      var routes := s.tasks[i].phase.routes;
      s' := match Pick(routes, dest)
        case Some(k) => SetPhase(s, i, Written(ProxyPortOf(routes[k]))).(cm := routes - {k})
        case None => SetPhase(s, i, Written(0));
    case AddRoute(key, dest) =>
      LeastFree(s.cm, key, dest);
      match FreePort(TakenPorts(s.cm))
      case Some(p) => s' := SetPhase(s, i, HasPort(s.tasks[i].phase.routes, p));
      case None => s' := SetPhase(s, i, Raised).(lock := None, log := s.log[..|s.log| - 1]);
  }

  /**
    No deadlock: whoever holds the lock can take its next step, and gives the lock up at the end; if nobody holds it
    any waiting task can take it. An add draws a key that is not in use, for an address without a comma.
   */
  lemma NeverStuck(run: seq<State>, i: nat) returns (s': State)
    requires Behaviour(run)
    requires var s := run[|run| - 1];
      && i in s.tasks && (s.lock == Some(i) || (s.lock.None? && s.tasks[i].phase.Waiting?))
      && (s.tasks[i].edit.AddRoute? ==> s.tasks[i].edit.key !in s.cm && ',' !in s.tasks[i].edit.dest)
    ensures Goes(run[|run| - 1], s', i) && Step(run[|run| - 1], s')
  {
    var s := run[|run| - 1];
    InvHolds(run);
    match s.tasks[i].phase {
      case Waiting => s' := GoesWaiting(s, i);
      case Locked => s' := SetPhase(s, i, HasRead(s.cm));
      case HasRead(_) => s' := GoesOn(run[0].cm, s, i);
      case HasPort(routes, port) =>
        s' := SetPhase(s, i, Written(port)).(cm := s.cm + routes[s.tasks[i].edit.key := RouteValueOf(s.tasks[i].edit.dest, port)]);
      case Written(result) => s' := SetPhase(s, i, Returned(result)).(lock := None);
      case Returned(_) => s' := s;
      case Raised => s' := s;
    }
    assert TaskStep(s, s', i);
  }

  // ----- Removed destinations -----

  ghost predicate StoredOnce(routes: Routes, dest: string) {
    forall k, l :: k in routes && l in routes && DestOf(routes[k]) == dest && DestOf(routes[l]) == dest ==> k == l
  }

  ghost predicate NoneStored(routes: Routes, dest: string) { forall k :: k in routes ==> DestOf(routes[k]) != dest }

  /** The step writes a route for the destination. */
  ghost predicate AddStep(s: State, s': State, dest: string) {
    exists a :: Patches(s, s', a) && s.tasks[a].edit.dest == dest
  }

  /** The `m`-th step is the write of task `i`, which removes the destination. */
  ghost predicate RemovedAt(run: seq<State>, m: nat, i: nat, dest: string) {
    0 < m < |run| && Replaces(run[m - 1], run[m], i) && run[m - 1].tasks[i].edit == RemoveRoute(dest)
  }

  ghost predicate AddedAt(run: seq<State>, n: nat, dest: string) {
    0 < n < |run| && AddStep(run[n - 1], run[n], dest)
  }

  ghost predicate AddedSince(run: seq<State>, m: nat, dest: string) {
    exists n :: n > m && AddedAt(run, n, dest)
  }

  lemma TaskKeepsGone(init: Routes, s: State, s': State, i: nat, dest: string)
    requires Inv(init, s) && TaskStep(s, s', i) && NoneStored(s.cm, dest) && !AddStep(s, s', dest)
    ensures NoneStored(s'.cm, dest)
  {
    if Patches(s, s', i) {
      PatchEffect(init, s, s', i);
      var Task(AddRoute(key, dest'), HasPort(routes, port)) := s.tasks[i];
      ValueDecodes(dest', port);
    } else if Replaces(s, s', i) {
      LockedRemove(init, s, s', i);
    }
  }

  /** After a step that does not add it, a destination that was gone is gone. */
  lemma StepKeepsGone(init: Routes, s: State, s': State, dest: string)
    requires Inv(init, s) && Step(s, s') && NoneStored(s.cm, dest) && !AddStep(s, s', dest)
    ensures NoneStored(s'.cm, dest)
  {
    if i :| TaskStep(s, s', i) {
      TaskKeepsGone(init, s, s', i, dest);
    } else if bridges :| CollectsAll(s, s', bridges) {
    } else {
      assert exists i, edit :: Spawns(s, s', i, edit);
    }
  }

  /** A remove that has written or returned has either just written, or had done so before, with the same result. */
  lemma WrittenBefore(s: State, s': State, i: nat)
    requires Step(s, s') && i in s'.tasks && s'.tasks[i].edit.RemoveRoute?
    requires s'.tasks[i].phase.Written? || s'.tasks[i].phase.Returned?
    ensures i in s.tasks && s.tasks[i].edit == s'.tasks[i].edit
    ensures !Replaces(s, s', i) ==>
      && (s.tasks[i].phase.Written? || s.tasks[i].phase.Returned?)
      && s.tasks[i].phase.result == s'.tasks[i].phase.result
  {
    if j :| TaskStep(s, s', j) {
      if j == i {
        OwnStep(s, s', i);
      } else {
        OtherStep(s, s', j, i);
      }
    } else if bridges :| CollectsAll(s, s', bridges) {
    } else {
      assert exists j, edit :: Spawns(s, s', j, edit);
    }
  }

  lemma OwnStep(s: State, s': State, i: nat)
    requires TaskStep(s, s', i) && s'.tasks[i].edit.RemoveRoute?
    requires s'.tasks[i].phase.Written? || s'.tasks[i].phase.Returned?
    ensures s.tasks[i].edit == s'.tasks[i].edit
    ensures Replaces(s, s', i) || (s.tasks[i].phase.Written? && s.tasks[i].phase.result == s'.tasks[i].phase.result)
  {
  }

  lemma OtherStep(s: State, s': State, j: nat, i: nat)
    requires TaskStep(s, s', j) && i != j && i in s'.tasks
    ensures i in s.tasks && s'.tasks[i] == s.tasks[i]
  {
  }

  lemma InvBefore(run: seq<State>)
    requires Behaviour(run) && |run| > 1
    ensures Inv(run[0].cm, run[|run| - 2])
  {
    PrefixBehaves(run);
    InvHolds(run[..|run| - 1]);
  }

  /** The write of a remove that has returned. */
  lemma {:induction false} WriteOf(run: seq<State>, i: nat, dest: string) returns (m: nat)
    requires Behaviour(run) && i in run[|run| - 1].tasks && run[|run| - 1].tasks[i].edit == RemoveRoute(dest)
    requires run[|run| - 1].tasks[i].phase.Written? || run[|run| - 1].tasks[i].phase.Returned?
    ensures RemovedAt(run, m, i, dest) && RemovesOne(run[m - 1].cm, dest, run[m].cm, run[|run| - 1].tasks[i].phase.result)
  {
    assert |run| > 1;
    PrefixBehaves(run);
    WrittenBefore(run[|run| - 2], run[|run| - 1], i);
    if Replaces(run[|run| - 2], run[|run| - 1], i) {
      m := |run| - 1;
      InvBefore(run);
      LockedRemove(run[0].cm, run[m - 1], run[m], i);
    } else {
      m := WriteOf(run[..|run| - 1], i, dest);
    }
  }

  lemma {:induction false} GoneStays(run: seq<State>, m: nat, dest: string)
    requires Behaviour(run) && m < |run| && NoneStored(run[m].cm, dest) && !AddedSince(run, m, dest)
    ensures NoneStored(run[|run| - 1].cm, dest)
  {
    if m < |run| - 1 {
      var prefix, last := run[..|run| - 1], |run| - 1;
      PrefixBehaves(run);
      assert !AddedAt(run, last, dest);
      forall n | n > m
        ensures !AddedAt(prefix, n, dest)
      {
        assert !AddedAt(run, n, dest);
      }
      GoneStays(prefix, m, dest);
      InvHolds(prefix);
      StepKeepsGone(run[0].cm, run[last - 1], run[last], dest);
    }
  }

  /**
    A remove that has returned has written at some moment, and the port it returned is that of the route it took away.
    If the destination was stored once at that moment, no route has had it since, unless an add of it has written.
   */
  lemma RemovedUntilAdded(run: seq<State>, i: nat, dest: string) returns (m: nat)
    requires Behaviour(run) && i in run[|run| - 1].tasks && run[|run| - 1].tasks[i].edit == RemoveRoute(dest)
    requires run[|run| - 1].tasks[i].phase.Returned?
    ensures RemovedAt(run, m, i, dest) && RemovesOne(run[m - 1].cm, dest, run[m].cm, run[|run| - 1].tasks[i].phase.result)
    ensures StoredOnce(run[m - 1].cm, dest) && !AddedSince(run, m, dest) ==> NoneStored(run[|run| - 1].cm, dest)
  {
    m := WriteOf(run, i, dest);
    if StoredOnce(run[m - 1].cm, dest) && !AddedSince(run, m, dest) {
      GoneStays(run, m, dest);
    }
  }

  // ----- Why the lock is there -----

  /** Two adds that both read before either writes give two routes the same proxy port. */
  lemma UnlockedAddsCollide(routes: Routes, key: string, dest: string, key': string, dest': string, p: nat)
    requires FreePort(TakenPorts(routes)) == Some(p) && key != key' && ',' !in dest && ',' !in dest'
    ensures var first := routes + routes[key := RouteValueOf(dest, p)];
            var second := first + routes[key' := RouteValueOf(dest', p)];
            key !in routes && key' !in routes ==>
              key in second && key' in second && ProxyPortOf(second[key]) == ProxyPortOf(second[key']) && !PortsOk(second)
  {
    ValueDecodes(dest, p);
    ValueDecodes(dest', p);
  }

  /** A remove that read before an add wrote replaces the ConfigMap by one without the added route. */
  lemma UnlockedRemoveLosesAdd(routes: Routes, key: string, value: string, dest: string)
    requires key !in routes && Pick(routes, dest).Some?
    ensures var afterAdd := routes + routes[key := value];
            var afterRemove := routes - {Pick(routes, dest).value};
            key in afterAdd && key !in afterRemove
  {
  }
}

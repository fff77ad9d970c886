/** The download coordinator as a step relation. The registry lock is part of the state: the
    admission loop reads the registered tasks one at a time while it holds that lock, and workers
    and cancelling callers keep moving between those reads. */
module Coordinator {
  import opened Wrappers
  import opened DownloadTask

  type Id = nat

  /** Where a worker stands: spawned, transferring files, deleting the fetched package, about to
      drop its completion guard, gone. */
  datatype Pc = Admitted | Transferring | Removing | Exiting | Done

  /** `serial` counts admissions, so it orders the workers of one key by age. */
  datatype Worker = Worker(task: Task, pc: Pc, serial: nat)

  /** Who holds the registry lock. `Scanning` looks for a cancelled task of the same key that is
      still cleaning up, `Checking` for an active one, `Stopping` cancels everything. */
  datatype Lock =
    | Free
    | Scanning(key: Key, pending: set<Id>)
    | Checking(key: Key, pending: set<Id>)
    | Stopping(pending: set<Id>)

  /** `fetched`: callers that took a task out of the registry in order to cancel it and have
      released the lock; `installers`: callers whose install has begun. */
  datatype State = State(
    workers: map<Id, Worker>, registry: set<Id>, lock: Lock, closed: bool,
    fetched: set<Id>, installers: set<Id>, admissions: nat)

  datatype Action =
    | AdmitBegin(key: Key)
    | AdmitScan(id: Id)
    | AdmitScanned
    | AdmitCheck(id: Id)
    | AdmitInsert(id: Id, total: nat, sha256: string)
    | WorkerBegin(id: Id)
    | WorkerProgress(id: Id, bytes: nat)
    | WorkerFinish(id: Id, failure: Option<string>)
    | WorkerRemove(id: Id)
    | WorkerExit(id: Id)
    | WorkerAbandon(id: Id)
    | CancelFetch(id: Id)
    | CancelApply(id: Id)
    | InstallBegin(id: Id)
    | InstallFinish(id: Id, failure: Option<string>)
    | StopBegin
    | StopCancel(id: Id)
    | StopEnd

  const MAX_RUNTIME_UPDATE_OPERATIONS: nat := 64

  function Init(): State {
    State(map[], {}, Free, false, {}, {}, 0)
  }

  function TaskOf(s: State, id: Id): Task
    requires id in s.workers
  {
    s.workers[id].task
  }

  /** The effect of an action on the one worker it names. */
  function Moved(w: Worker, a: Action): Worker {
    var t := w.task;
    match a
    case WorkerBegin(_) => w.(task := Begun(t), pc := if t.cancelled then Exiting else Transferring)
    case WorkerProgress(_, bytes) => w.(task := t.(bytes := bytes))
    case WorkerFinish(_, failure) =>
      w.(task := Finished(t, failure), pc := if t.cancelled && failure.None? then Removing else Exiting)
    case WorkerRemove(_) => w.(pc := Exiting)
    // An abandoned worker's future is dropped or panics: only its completion guard still runs.
    case WorkerExit(_) => w.(task := t.(finished := true), pc := Done)
    case WorkerAbandon(_) => w.(task := t.(finished := true), pc := Done)
    case CancelApply(_) => w.(task := CancelledTask(t))
    case StopCancel(_) => w.(task := CancelledTask(t))
    case InstallBegin(_) => w.(task := InstallBegun(t))
    case InstallFinish(_, failure) => w.(task := InstallFinished(t, failure))
    case _ => w
  }

  function Move(s: State, id: Id, a: Action): State
    requires id in s.workers
  {
    s.(workers := s.workers[id := Moved(s.workers[id], a)])
  }

  /** What is left of a full registry. */
  function Pruned(s: State): (kept: set<Id>)
    ensures kept <= s.registry
  {
    if |s.registry| >= MAX_RUNTIME_UPDATE_OPERATIONS then
      set i | i in s.registry && !(i in s.workers && Prunable(TaskOf(s, i)))
    else
      s.registry
  }

  /** The insertion point of the admission loop is reached and there is room. */
  predicate Inserts(s: State, a: Action) {
    a.AdmitInsert? && s.lock.Checking? && |Pruned(s)| < MAX_RUNTIME_UPDATE_OPERATIONS
  }

  predicate Enabled(s: State, a: Action) {
    match a
    case AdmitBegin(_) => s.lock.Free? && !s.closed
    case AdmitScan(id) => s.lock.Scanning? && id in s.lock.pending && id in s.workers
    case AdmitScanned => s.lock.Scanning? && s.lock.pending == {}
    case AdmitCheck(id) => s.lock.Checking? && id in s.lock.pending && id in s.workers
    case AdmitInsert(id, _, _) => s.lock.Checking? && s.lock.pending == {} && id !in s.workers
    case WorkerBegin(id) => id in s.workers && s.workers[id].pc == Admitted
    case WorkerProgress(id, _) => id in s.workers && s.workers[id].pc == Transferring
    case WorkerFinish(id, _) => id in s.workers && s.workers[id].pc == Transferring
    case WorkerRemove(id) => id in s.workers && s.workers[id].pc == Removing
    case WorkerExit(id) => id in s.workers && s.workers[id].pc == Exiting
    case WorkerAbandon(id) => id in s.workers && s.workers[id].pc != Done
    case CancelFetch(id) => s.lock.Free? && id in s.registry
    case CancelApply(id) => id in s.fetched && id in s.workers
    case InstallBegin(id) =>
      && s.lock.Free? && id in s.registry && id in s.workers
      && TaskOf(s, id).status == Verified
      && (forall i :: i in s.registry && i in s.workers ==> TaskOf(s, i).status != Installing)
    case InstallFinish(id, _) => id in s.installers && id in s.workers
    case StopBegin => s.lock.Free?
    case StopCancel(id) => s.lock.Stopping? && id in s.lock.pending && id in s.workers
    case StopEnd => s.lock.Stopping? && s.lock.pending == {}
  }

  function Next(s: State, a: Action): State
    requires Enabled(s, a)
  {
    match a
    case AdmitBegin(key) => s.(lock := Scanning(key, s.registry))
    case AdmitScan(id) =>
      // A task that is still cleaning up makes the caller release the lock and wait.
      if TaskOf(s, id).key == s.lock.key && CleaningUp(TaskOf(s, id)) then s.(lock := Free)
      else s.(lock := Scanning(s.lock.key, s.lock.pending - {id}))
    case AdmitScanned => s.(lock := Checking(s.lock.key, s.registry))
    case AdmitCheck(id) =>
      if TaskOf(s, id).key == s.lock.key && Active(TaskOf(s, id)) then s.(lock := Free)
      else s.(lock := Checking(s.lock.key, s.lock.pending - {id}))
    case AdmitInsert(id, total, sha256) =>
      if Inserts(s, a) then
        s.(workers := s.workers[id := Worker(NewTask(s.lock.key, total, sha256), Admitted, s.admissions)],
           registry := Pruned(s) + {id}, lock := Free, admissions := s.admissions + 1)
      else
        s.(registry := Pruned(s), lock := Free)
    case CancelFetch(id) => s.(fetched := s.fetched + {id})
    case CancelApply(id) => Move(s, id, a).(fetched := s.fetched - {id})
    case InstallBegin(id) => Move(s, id, a).(installers := s.installers + {id})
    case InstallFinish(id, _) => Move(s, id, a).(installers := s.installers - {id})
    case StopBegin => s.(closed := true, lock := Stopping(s.registry))
    case StopCancel(id) => Move(s, id, a).(lock := Stopping(s.lock.pending - {id}))
    case StopEnd => s.(lock := Free)
    case _ => Move(s, a.id, a)
  }

  /** The state after a list of actions, if each was enabled when its turn came. */
  function Run(s: State, actions: seq<Action>): Option<State>
    decreases |actions|
  {
    if actions == [] then Some(s)
    else if Enabled(s, actions[0]) then Run(Next(s, actions[0]), actions[1..])
    else None
  }

  // ---------------------------------------------------------------------------------------------
  // What every run keeps
  // ---------------------------------------------------------------------------------------------

  predicate WorkerOk(w: Worker) {
    var t := w.task;
    && (t.cancelled <==> t.status == Cancelled)
    && (t.finished <==> w.pc == Done)
    && (w.pc == Admitted ==> t.status == Queued || t.status == Cancelled)
    && (w.pc == Transferring ==> t.status == Downloading || t.status == Cancelled)
    && (w.pc == Removing ==> t.status == Cancelled)
    && (w.pc == Exiting ==> !Active(t))
  }

  /** The worker's next steps may still read or write the cache files of its key. */
  predicate Touches(w: Worker) {
    w.pc == Admitted || w.pc == Transferring || w.pc == Removing
  }

  ghost predicate NamesOk(s: State) {
    s.registry <= s.workers.Keys && s.fetched <= s.workers.Keys
  }

  ghost predicate WorkersOk(s: State) {
    && (forall i :: i in s.workers ==> WorkerOk(s.workers[i]))
    && (forall i :: i in s.workers ==> s.workers[i].serial < s.admissions)
    && (forall i, j :: i in s.workers && j in s.workers && s.workers[i].serial == s.workers[j].serial ==> i == j)
  }

  /** Pruning forgets no task that may still touch files, and the registry is bounded. */
  ghost predicate OwnersRegistered(s: State) {
    && |s.registry| <= MAX_RUNTIME_UPDATE_OPERATIONS
    && (forall i :: i in s.workers && Owner(TaskOf(s, i)) ==> i in s.registry)
  }

  ghost predicate OneInstaller(s: State) {
    && (forall i :: i in s.workers && TaskOf(s, i).status == Installing ==> i in s.registry)
    && (forall i :: i in s.installers ==> i in s.workers && TaskOf(s, i).status == Installing)
    && (forall i, j | i in s.workers && j in s.workers ::
          TaskOf(s, i).status == Installing && TaskOf(s, j).status == Installing ==> i == j)
  }

  /** Shutdown leaves no queued or downloading task behind, and an admission under way excludes it. */
  ghost predicate StopOk(s: State) {
    && (s.lock.Scanning? || s.lock.Checking? ==> !s.closed)
    && (s.lock.Stopping? ==>
          s.closed && s.lock.pending <= s.registry
          && forall i :: i in s.workers && Active(TaskOf(s, i)) ==> i in s.lock.pending)
    && (s.closed && !s.lock.Stopping? ==> forall i :: i in s.workers ==> !Active(TaskOf(s, i)))
  }

  /** What the second scan has already read stays true: an inactive task never becomes active. */
  ghost predicate CheckedOk(s: State) {
    && (s.lock.Scanning? ==> s.lock.pending <= s.registry)
    && (s.lock.Checking? ==>
          s.lock.pending <= s.registry
          && forall i | i in s.registry && i in s.workers && i !in s.lock.pending ::
               TaskOf(s, i).key == s.lock.key ==> !Active(TaskOf(s, i)))
  }

  ghost predicate Inv(s: State) {
    NamesOk(s) && WorkersOk(s) && OwnersRegistered(s) && OneInstaller(s) && StopOk(s) && CheckedOk(s)
  }

  lemma PrunedKeepsOwners(s: State)
    requires Inv(s)
    ensures forall i :: i in s.workers && i in s.registry && i !in Pruned(s) ==> Prunable(TaskOf(s, i))
    ensures |Pruned(s)| <= |s.registry|
  {
    SubsetCardinality(Pruned(s), s.registry);
  }

  lemma {:induction false} SubsetCardinality(a: set<Id>, b: set<Id>)
    requires a <= b
    ensures |a| <= |b|
  {
    if a != {} {
      var x :| x in a;
      SubsetCardinality(a - {x}, b - {x});
    }
  }

  /** One action seen by one worker: its identity stays, ownership and activity are never regained,
      and its status only ever moves down the rank. */
  ghost predicate Evolves(w: Worker, w': Worker) {
    && w'.serial == w.serial && w'.task.key == w.task.key && w'.task.sha256 == w.task.sha256
    && (Owner(w'.task) ==> Owner(w.task))
    && (Active(w'.task) ==> Active(w.task))
    && (w'.task.status == w.task.status || Rank(w'.task.status) < Rank(w.task.status))
    && (w.task.finished ==> w'.task.finished)
  }

  lemma MovedOk(w: Worker, a: Action)
    requires WorkerOk(w)
    requires a.WorkerBegin? ==> w.pc == Admitted
    requires a.WorkerProgress? || a.WorkerFinish? ==> w.pc == Transferring
    requires a.WorkerRemove? ==> w.pc == Removing
    requires a.WorkerExit? ==> w.pc == Exiting
    requires a.InstallBegin? ==> w.task.status == Verified
    requires a.InstallFinish? ==> w.task.status == Installing
    ensures WorkerOk(Moved(w, a)) && Evolves(w, Moved(w, a))
  {
  }

  /** Every action leaves a worker alone or moves it. */
  lemma StepMoves(s: State, a: Action, i: Id)
    requires Enabled(s, a) && i in s.workers
    ensures i in Next(s, a).workers
    ensures Next(s, a).workers[i] == s.workers[i] || Next(s, a).workers[i] == Moved(s.workers[i], a)
    ensures Next(s, a).workers[i] != s.workers[i] ==> !a.AdmitBegin? && !a.AdmitScanned? && !a.StopBegin? && !a.StopEnd?
                                                      && a.id == i
  {
  }

  lemma StepWorker(s: State, a: Action, i: Id)
    requires Inv(s) && Enabled(s, a) && i in s.workers
    ensures i in Next(s, a).workers
    ensures WorkerOk(Next(s, a).workers[i]) && Evolves(s.workers[i], Next(s, a).workers[i])
  {
    StepMoves(s, a, i);
    if Next(s, a).workers[i] != s.workers[i] {
      MovedOk(s.workers[i], a);
    }
  }

  lemma StepKeys(s: State, a: Action)
    requires Enabled(s, a)
    ensures Next(s, a).workers.Keys == s.workers.Keys + (if Inserts(s, a) then {a.id} else {})
    ensures Next(s, a).admissions == s.admissions + (if Inserts(s, a) then 1 else 0)
    ensures Inserts(s, a) ==>
      Next(s, a).workers[a.id] == Worker(NewTask(s.lock.key, a.total, a.sha256), Admitted, s.admissions)
  {
  }

  lemma StepNamesOk(s: State, a: Action)
    requires Inv(s) && Enabled(s, a)
    ensures NamesOk(Next(s, a))
  {
  }

  lemma StepWorkersOk(s: State, a: Action)
    requires Inv(s) && Enabled(s, a)
    ensures WorkersOk(Next(s, a))
  {
    var s' := Next(s, a);
    StepKeys(s, a);
    forall i | i in s.workers
      ensures WorkerOk(s'.workers[i]) && s'.workers[i].serial == s.workers[i].serial
    {
      StepWorker(s, a, i);
    }
    WorkersOkFrom(s, s', if Inserts(s, a) then Some(a.id) else None);
  }

  lemma WorkersOkFrom(s: State, s': State, added: Option<Id>)
    requires WorkersOk(s)
    requires forall i :: i in s'.workers <==> i in s.workers || added == Some(i)
    requires s.admissions <= s'.admissions && (added.Some? ==> s.admissions < s'.admissions)
    requires forall i :: i in s.workers ==> WorkerOk(s'.workers[i]) && s'.workers[i].serial == s.workers[i].serial
    requires added.Some? ==>
      added.value !in s.workers && WorkerOk(s'.workers[added.value]) && s'.workers[added.value].serial == s.admissions
    ensures WorkersOk(s')
  {
    forall i, j | i in s'.workers && j in s'.workers && s'.workers[i].serial == s'.workers[j].serial
      ensures i == j
    {
      assert forall k :: k in s.workers ==> s'.workers[k].serial < s.admissions;
    }
  }

  lemma StepRegistry(s: State, a: Action)
    requires Enabled(s, a)
    ensures Next(s, a).registry ==
      (if a.AdmitInsert? then Pruned(s) + (if Inserts(s, a) then {a.id} else {}) else s.registry)
  {
  }

  lemma StepOwnersRegistered(s: State, a: Action)
    requires Inv(s) && Enabled(s, a)
    ensures OwnersRegistered(Next(s, a))
  {
    PrunedKeepsOwners(s);
    StepKeys(s, a);
    StepRegistry(s, a);
    forall i | i in s.workers && Owner(TaskOf(Next(s, a), i))
      ensures i in s.registry && Owner(TaskOf(s, i))
    {
      StepWorker(s, a, i);
    }
    OwnersRegisteredFrom(s, Next(s, a), Pruned(s), if Inserts(s, a) then {a.id} else {});
  }

  lemma OwnersRegisteredFrom(s: State, s': State, kept: set<Id>, added: set<Id>)
    requires s.registry <= s.workers.Keys && s'.workers.Keys == s.workers.Keys + added
    requires forall i :: i in s.registry && i !in kept ==> Prunable(TaskOf(s, i))
    requires s'.registry == kept + added || s'.registry == s.registry
    requires s'.registry == s.registry ==> |s.registry| <= MAX_RUNTIME_UPDATE_OPERATIONS && added <= s.registry
    requires |kept| + |added| <= MAX_RUNTIME_UPDATE_OPERATIONS || s'.registry == s.registry
    requires forall i :: i in s.workers && Owner(TaskOf(s', i)) ==> i in s.registry && Owner(TaskOf(s, i))
    ensures OwnersRegistered(s')
  {
  }

  /** Only an install that begins puts a task into that status, only its end takes it out. */
  lemma StepInstalling(s: State, a: Action, i: Id)
    requires Inv(s) && Enabled(s, a) && i in s.workers
    ensures i in Next(s, a).workers
    ensures TaskOf(Next(s, a), i).status == Installing ==> a == InstallBegin(i) || TaskOf(s, i).status == Installing
    ensures TaskOf(s, i).status == Installing ==>
      TaskOf(Next(s, a), i).status == Installing || (a.InstallFinish? && a.id == i)
  {
    StepMoves(s, a, i);
    assert WorkerOk(s.workers[i]);
  }

  lemma StepInstallers(s: State, a: Action)
    requires Enabled(s, a)
    ensures Next(s, a).installers ==
      (match a
       case InstallBegin(i) => s.installers + {i}
       case InstallFinish(i, _) => s.installers - {i}
       case _ => s.installers)
    ensures a.InstallBegin? ==> a.id in s.registry && TaskOf(Next(s, a), a.id).status == Installing
  {
  }

  lemma StepOneInstaller(s: State, a: Action)
    requires Inv(s) && Enabled(s, a)
    ensures OneInstaller(Next(s, a))
  {
    hide Next, Enabled, WorkersOk, OwnersRegistered, StopOk, CheckedOk;
    PrunedKeepsOwners(s);
    StepKeys(s, a);
    StepRegistry(s, a);
    StepInstallers(s, a);
    forall i | i in s.workers
      ensures TaskOf(Next(s, a), i).status == Installing ==> a == InstallBegin(i) || TaskOf(s, i).status == Installing
      ensures TaskOf(s, i).status == Installing ==>
        TaskOf(Next(s, a), i).status == Installing || (a.InstallFinish? && a.id == i)
    {
      StepInstalling(s, a, i);
    }
    OneInstallerFrom(s, Next(s, a), a);
  }

  lemma OneInstallerFrom(s: State, s': State, a: Action)
    requires Inv(s) && Enabled(s, a) && s.workers.Keys <= s'.workers.Keys
    requires forall i :: i in s'.workers && i !in s.workers ==> TaskOf(s', i).status == Queued
    requires forall i :: i in s.registry && TaskOf(s, i).status == Installing ==> i in s'.registry
    requires a.InstallBegin? ==> a.id in s'.registry && TaskOf(s', a.id).status == Installing
    requires s'.installers ==
      (match a
       case InstallBegin(i) => s.installers + {i}
       case InstallFinish(i, _) => s.installers - {i}
       case _ => s.installers)
    requires forall i :: i in s.workers ==>
      (TaskOf(s', i).status == Installing ==> a == InstallBegin(i) || TaskOf(s, i).status == Installing)
    requires forall i :: i in s.workers ==>
      (TaskOf(s, i).status == Installing ==> TaskOf(s', i).status == Installing || (a.InstallFinish? && a.id == i))
    ensures OneInstaller(s')
  {
    forall i, j | i in s'.workers && j in s'.workers &&
                  TaskOf(s', i).status == Installing && TaskOf(s', j).status == Installing
      ensures i == j
    {
      if a.InstallBegin? {
        assert forall k :: k in s.workers ==> TaskOf(s, k).status != Installing;
      }
    }
  }

  /** The actions that leave every worker alone. */
  predicate OnLock(a: Action) {
    a.AdmitBegin? || a.AdmitScan? || a.AdmitScanned? || a.AdmitCheck? || a.CancelFetch? || a.StopBegin? || a.StopEnd?
  }

  lemma LockStopOk(s: State, a: Action)
    requires Inv(s) && Enabled(s, a) && OnLock(a)
    ensures StopOk(Next(s, a)) && CheckedOk(Next(s, a))
  {
    hide OneInstaller, WorkersOk, Moved, Active, Pruned;
  }

  lemma InsertStopOk(s: State, a: Action)
    requires Inv(s) && Enabled(s, a) && a.AdmitInsert?
    ensures StopOk(Next(s, a)) && CheckedOk(Next(s, a))
  {
    hide OneInstaller, WorkersOk, Moved, OwnersRegistered;
  }

  /** Moving one worker never makes it active. */
  lemma MovedInactive(w: Worker, a: Action)
    requires WorkerOk(w)
    requires a.WorkerBegin? ==> w.pc == Admitted
    requires a.WorkerProgress? || a.WorkerFinish? ==> w.pc == Transferring
    ensures Moved(w, a).task.key == w.task.key
    ensures Active(Moved(w, a).task) ==> Active(w.task) && !a.StopCancel?
  {
  }

  lemma MoveStopOk(s: State, a: Action)
    requires Inv(s) && Enabled(s, a) && !OnLock(a) && !a.AdmitInsert?
    ensures StopOk(Next(s, a)) && CheckedOk(Next(s, a))
  {
    MovedInactive(s.workers[a.id], a) by {
      assert WorkerOk(s.workers[a.id]);
    }
    assert Next(s, a).workers == s.workers[a.id := Moved(s.workers[a.id], a)];
    hide OneInstaller, WorkersOk, Moved, Active, OwnersRegistered, Pruned;
  }

  lemma StepStopOk(s: State, a: Action)
    requires Inv(s) && Enabled(s, a)
    ensures StopOk(Next(s, a)) && CheckedOk(Next(s, a))
  {
    hide StopOk, CheckedOk, Inv, Next, Enabled, OnLock;
    if a.AdmitInsert? {
      InsertStopOk(s, a);
    } else if OnLock(a) {
      LockStopOk(s, a);
    } else {
      MoveStopOk(s, a);
    }
  }

  lemma StepInv(s: State, a: Action)
    requires Inv(s) && Enabled(s, a)
    ensures Inv(Next(s, a))
  {
    StepNamesOk(s, a);
    StepWorkersOk(s, a);
    StepOwnersRegistered(s, a);
    StepOneInstaller(s, a);
    StepStopOk(s, a);
  }

  // ---------------------------------------------------------------------------------------------
  // Safety over whole runs
  // ---------------------------------------------------------------------------------------------

  lemma {:induction false} RunInv(s: State, actions: seq<Action>)
    requires Inv(s) && Run(s, actions).Some?
    ensures Inv(Run(s, actions).value)
    decreases |actions|
  {
    if actions != [] {
      StepInv(s, actions[0]);
      RunInv(Next(s, actions[0]), actions[1..]);
    }
  }

  /** Every interleaving: the registry is bounded, one install at a time, and no task that may still
      touch files has been forgotten. */
  lemma ReachableSafe(actions: seq<Action>, s: State)
    requires Run(Init(), actions) == Some(s)
    ensures |s.registry| <= MAX_RUNTIME_UPDATE_OPERATIONS
    ensures forall i, j | i in s.workers && j in s.workers ::
      TaskOf(s, i).status == Installing && TaskOf(s, j).status == Installing ==> i == j
    ensures forall i :: i in s.workers && Touches(s.workers[i]) ==> i in s.registry && Owner(TaskOf(s, i))
  {
    RunInv(Init(), actions);
    forall i | i in s.workers && Touches(s.workers[i])
      ensures Owner(TaskOf(s, i))
    {
      assert WorkerOk(s.workers[i]);
    }
  }

  predicate Quiet(s: State) {
    s.closed && forall i :: i in s.workers ==> !Active(s.workers[i].task)
  }

  /** Once a shutdown has released the registry lock, nothing is ever admitted again and no task is
      ever queued or downloading again. */
  lemma AfterShutdown(before: seq<Action>, s: State, after: seq<Action>, s': State)
    requires Run(Init(), before) == Some(s) && s.closed && !s.lock.Stopping?
    requires Run(s, after) == Some(s')
    ensures s'.workers.Keys == s.workers.Keys && s'.admissions == s.admissions
    ensures Quiet(s')
  {
    RunInv(Init(), before);
    QuietRun(s, after);
  }

  lemma QuietStep(s: State, a: Action)
    requires Inv(s) && Quiet(s) && Enabled(s, a)
    ensures Quiet(Next(s, a)) && !Inserts(s, a)
  {
    StepKeys(s, a);
    forall i | i in s.workers
      ensures !Active(Next(s, a).workers[i].task)
    {
      StepWorker(s, a, i);
    }
  }

  lemma {:induction false} QuietRun(s: State, actions: seq<Action>)
    requires Inv(s) && Quiet(s) && Run(s, actions).Some?
    ensures var s' := Run(s, actions).value;
      Quiet(s') && s'.workers.Keys == s.workers.Keys && s'.admissions == s.admissions
    decreases |actions|
  {
    if actions != [] {
      StepInv(s, actions[0]);
      StepKeys(s, actions[0]);
      QuietStep(s, actions[0]);
      QuietRun(Next(s, actions[0]), actions[1..]);
    }
  }

  /** How often the status of one task changes along a run. */
  function StatusChanges(s: State, actions: seq<Action>, i: Id): nat
    requires i in s.workers && Run(s, actions).Some?
    decreases |actions|
  {
    if actions == [] then 0
    else
      var s' := Next(s, actions[0]);
      if i !in s'.workers then 0
      else (if TaskOf(s', i).status == TaskOf(s, i).status then 0 else 1) + StatusChanges(s', actions[1..], i)
  }

  /** Status changes are paid for by the rank; completed, failed and cancelled are absorbing. */
  lemma {:induction false} StatusRank(s: State, actions: seq<Action>, i: Id)
    requires Inv(s) && i in s.workers && Run(s, actions).Some?
    ensures i in Run(s, actions).value.workers
    ensures StatusChanges(s, actions, i) + Rank(TaskOf(Run(s, actions).value, i).status) <= Rank(TaskOf(s, i).status)
    ensures TaskOf(s, i).status in {Completed, Failed, Cancelled} ==>
      TaskOf(Run(s, actions).value, i).status == TaskOf(s, i).status
    decreases |actions|
  {
    if actions != [] {
      StepInv(s, actions[0]);
      StepWorker(s, actions[0], i);
      StatusRank(Next(s, actions[0]), actions[1..], i);
    }
  }

  // ---------------------------------------------------------------------------------------------
  // One owner per key: when it holds, and the run on which it does not
  // ---------------------------------------------------------------------------------------------

  /** Of two tasks with one key, only the younger may still own the cache files. */
  ghost predicate Exclusive(s: State) {
    forall i, j | i in s.workers && j in s.workers && TaskOf(s, i).key == TaskOf(s, j).key ::
      s.workers[i].serial < s.workers[j].serial ==> !Owner(TaskOf(s, i))
  }

  /** No registered task of the key is being cleaned up: the guard of the admission's first scan. */
  ghost predicate NoneCleaningUp(s: State, key: Key, ids: set<Id>) {
    forall i | i in ids && i in s.workers :: TaskOf(s, i).key == key ==> !CleaningUp(TaskOf(s, i))
  }

  ghost predicate ScannedOk(s: State) {
    && (s.lock.Scanning? ==> NoneCleaningUp(s, s.lock.key, s.registry - s.lock.pending))
    && (s.lock.Checking? ==> NoneCleaningUp(s, s.lock.key, s.registry))
  }

  /** An insertion keeps exclusion exactly when the guard of the first scan still holds at the
      moment of the insertion. */
  lemma InsertExclusive(s: State, a: Action)
    requires Inv(s) && Exclusive(s) && Enabled(s, a) && Inserts(s, a)
    ensures Exclusive(Next(s, a)) <==> NoneCleaningUp(s, s.lock.key, s.registry)
  {
    var s' := Next(s, a);
    assert s'.workers == s.workers[a.id := Worker(NewTask(s.lock.key, a.total, a.sha256), Admitted, s.admissions)];
    if NoneCleaningUp(s, s.lock.key, s.registry) {
      forall i, j | i in s'.workers && j in s'.workers && TaskOf(s', i).key == TaskOf(s', j).key
                    && s'.workers[i].serial < s'.workers[j].serial
        ensures !Owner(TaskOf(s', i))
      {
        assert i != a.id by { assert j != a.id ==> s.workers[j].serial < s.admissions; }
        if j == a.id {
          NoOwnerLeft(s, i);
        }
      }
    } else {
      var i :| i in s.registry && i in s.workers && TaskOf(s, i).key == s.lock.key && CleaningUp(TaskOf(s, i));
      assert s.workers[i].serial < s.admissions;
      assert Owner(TaskOf(s', i)) && s'.workers[i].serial < s'.workers[a.id].serial;
    }
  }

  lemma NoOwnerLeft(s: State, i: Id)
    requires Inv(s) && s.lock.Checking? && s.lock.pending == {} && NoneCleaningUp(s, s.lock.key, s.registry)
    requires i in s.workers && TaskOf(s, i).key == s.lock.key
    ensures !Owner(TaskOf(s, i))
  {
  }

  /** A cancel of the key that is being admitted waits until the admission has released the lock. */
  predicate Disciplined(s: State, a: Action) {
    a.CancelApply? && a.id in s.workers && (s.lock.Scanning? || s.lock.Checking?) ==>
      TaskOf(s, a.id).key != s.lock.key
  }

  predicate DisciplinedRun(s: State, actions: seq<Action>)
    decreases |actions|
  {
    actions == [] ||
    (Enabled(s, actions[0]) && Disciplined(s, actions[0]) && DisciplinedRun(Next(s, actions[0]), actions[1..]))
  }

  lemma StepScannedOk(s: State, a: Action)
    requires Inv(s) && ScannedOk(s) && Enabled(s, a) && Disciplined(s, a)
    ensures ScannedOk(Next(s, a))
  {
    if (s.lock.Scanning? || s.lock.Checking?) {
      var scanned := if s.lock.Scanning? then s.registry - s.lock.pending else s.registry;
      StaysNoneCleaningUp(s, a, scanned);
      if a.AdmitScan? {
        assert s.registry - (s.lock.pending - {a.id}) == scanned + {a.id};
      }
    }
  }

  lemma StaysNoneCleaningUp(s: State, a: Action, ids: set<Id>)
    requires Inv(s) && Enabled(s, a) && Disciplined(s, a) && ids <= s.registry
    requires (s.lock.Scanning? || s.lock.Checking?) && NoneCleaningUp(s, s.lock.key, ids)
    ensures NoneCleaningUp(Next(s, a), s.lock.key, ids)
  {
    forall i | i in ids && TaskOf(s, i).key == s.lock.key
      ensures !CleaningUp(TaskOf(Next(s, a), i))
    {
      StaysClean(s, a, i);
    }
    forall i | i in ids
      ensures TaskOf(Next(s, a), i).key == TaskOf(s, i).key
    {
      StepWorker(s, a, i);
    }
  }

  lemma StaysClean(s: State, a: Action, i: Id)
    requires Inv(s) && Enabled(s, a) && Disciplined(s, a) && i in s.workers
    requires (s.lock.Scanning? || s.lock.Checking?) && TaskOf(s, i).key == s.lock.key && !CleaningUp(TaskOf(s, i))
    ensures i in Next(s, a).workers && TaskOf(Next(s, a), i).key == s.lock.key
    ensures !CleaningUp(TaskOf(Next(s, a), i))
  {
    StepMoves(s, a, i);
    var w, w' := s.workers[i], Next(s, a).workers[i];
    if w' != w {
      assert !a.CancelApply? && !a.StopCancel?;
      MovedClean(w, a);
    }
    hide *;
  }

  /** Only a cancellation makes a task one that is still cleaning up. */
  lemma MovedClean(w: Worker, a: Action)
    requires !a.CancelApply? && !a.StopCancel? && !CleaningUp(w.task)
    ensures !CleaningUp(Moved(w, a).task) && Moved(w, a).task.key == w.task.key
  {
  }

  lemma StepExclusive(s: State, a: Action)
    requires Inv(s) && ScannedOk(s) && Exclusive(s) && Enabled(s, a)
    ensures Exclusive(Next(s, a))
  {
    if Inserts(s, a) {
      InsertExclusive(s, a);
    } else {
      StepKeys(s, a);
      forall i | i in s.workers
        ensures Evolves(s.workers[i], Next(s, a).workers[i])
      {
        StepWorker(s, a, i);
      }
    }
  }

  lemma {:induction false} DisciplinedRunExclusive(s: State, actions: seq<Action>)
    requires Inv(s) && ScannedOk(s) && Exclusive(s) && DisciplinedRun(s, actions)
    ensures Run(s, actions).Some?
    ensures var s' := Run(s, actions).value; Inv(s') && ScannedOk(s') && Exclusive(s')
    decreases |actions|
  {
    if actions != [] {
      StepInv(s, actions[0]);
      StepScannedOk(s, actions[0]);
      StepExclusive(s, actions[0]);
      DisciplinedRunExclusive(Next(s, actions[0]), actions[1..]);
    }
  }

  /** With that discipline no two workers of one key may touch files at once, and a worker never
      touches them again once a retry with its key has been admitted. */
  lemma OneOwnerPerKey(actions: seq<Action>, s: State, i: Id, j: Id)
    requires DisciplinedRun(Init(), actions) && Run(Init(), actions) == Some(s)
    requires i in s.workers && j in s.workers && i != j && TaskOf(s, i).key == TaskOf(s, j).key
    ensures !Owner(TaskOf(s, i)) || !Owner(TaskOf(s, j))
    ensures s.workers[i].serial < s.workers[j].serial ==> !Touches(s.workers[i])
  {
    DisciplinedRunExclusive(Init(), actions);
    assert WorkerOk(s.workers[i]) && s.workers[i].serial != s.workers[j].serial;
  }

  // The run that breaks exclusion: the cancel of task 0 is fetched before the second admission takes
  // the lock and is applied between that admission's two scans.

  function RaceStart(key: Key, total: nat, sha: string): seq<Action> {
    [AdmitBegin(key), AdmitScanned, AdmitInsert(0, total, sha), WorkerBegin(0), CancelFetch(0)]
  }

  function RaceScan(key: Key): seq<Action> {
    [AdmitBegin(key), AdmitScan(0), AdmitScanned, CancelApply(0), AdmitCheck(0)]
  }

  function RaceEnd(total: nat, sha: string): seq<Action> {
    [AdmitInsert(1, total, sha), WorkerBegin(1), WorkerFinish(0, None)]
  }

  function RaceWorker(key: Key, total: nat, sha: string, status: Status, pc: Pc, serial: nat): Worker {
    Worker(NewTask(key, total, sha).(status := status, cancelled := status == Cancelled), pc, serial)
  }

  lemma {:induction false} RunAppend(s: State, first: seq<Action>, second: seq<Action>)
    requires Run(s, first).Some?
    ensures Run(s, first + second) == Run(Run(s, first).value, second)
    decreases |first|
  {
    if first == [] {
      assert first + second == second;
    } else {
      assert (first + second)[1..] == first[1..] + second;
      RunAppend(Next(s, first[0]), first[1..], second);
    }
  }

  lemma RunStep(s: State, actions: seq<Action>)
    requires actions != [] && Enabled(s, actions[0])
    ensures Run(s, actions) == Run(Next(s, actions[0]), actions[1..])
  {
  }

  lemma RaceStartRuns(key: Key, total: nat, sha: string)
    ensures Run(Init(), RaceStart(key, total, sha)) ==
      Some(State(map[0 := RaceWorker(key, total, sha, Downloading, Transferring, 0)], {0}, Free, false, {0}, {}, 1))
  {
    var acts := RaceStart(key, total, sha);
    var s0 := Init();
    var s1 := Next(s0, acts[0]);
    var s2 := Next(s1, acts[1]);
    var s3 := Next(s2, acts[2]);
    var s4 := Next(s3, acts[3]);
    var s5 := Next(s4, acts[4]);
    assert s5.workers == map[0 := RaceWorker(key, total, sha, Downloading, Transferring, 0)];
    RunStep(s3, acts[3..]);
    RunStep(s2, acts[2..]);
    RunStep(s1, acts[1..]);
  }

  lemma RaceScanRuns(key: Key, total: nat, sha: string, s: State)
    requires s ==
      State(map[0 := RaceWorker(key, total, sha, Downloading, Transferring, 0)], {0}, Free, false, {0}, {}, 1)
    ensures Run(s, RaceScan(key)) ==
      Some(State(
             map[0 := RaceWorker(key, total, sha, Cancelled, Transferring, 0)], {0}, Checking(key, {}), false,
             {}, {}, 1))
  {
    var acts := RaceScan(key);
    var s1 := Next(s, acts[0]);
    var s2 := Next(s1, acts[1]);
    assert s2.lock == Scanning(key, {});
    var s3 := Next(s2, acts[2]);
    var s4 := Next(s3, acts[3]);
    assert s4.workers == map[0 := RaceWorker(key, total, sha, Cancelled, Transferring, 0)] && s4.fetched == {};
    var s5 := Next(s4, acts[4]);
    assert s5.lock == Checking(key, {});
    RunStep(s3, acts[3..]);
    RunStep(s2, acts[2..]);
    RunStep(s1, acts[1..]);
  }

  lemma RaceEndRuns(key: Key, total: nat, sha: string, s: State)
    requires s ==
      State(map[0 := RaceWorker(key, total, sha, Cancelled, Transferring, 0)], {0}, Checking(key, {}), false, {}, {}, 1)
    ensures Run(s, RaceEnd(total, sha)) ==
      Some(State(map[0 := RaceWorker(key, total, sha, Cancelled, Removing, 0),
                     1 := RaceWorker(key, total, sha, Downloading, Transferring, 1)],
                 {0, 1}, Free, false, {}, {}, 2))
  {
    var acts := RaceEnd(total, sha);
    var s1 := Next(s, acts[0]);
    var s2 := Next(s1, acts[1]);
    var s3 := Next(s2, acts[2]);
    assert Pruned(s) == {0} && s1.registry == {0, 1};
    RunStep(s2, acts[2..]);
    RunStep(s1, acts[1..]);
    RunStep(s, acts);
    assert s3.workers == map[0 := RaceWorker(key, total, sha, Cancelled, Removing, 0),
                             1 := RaceWorker(key, total, sha, Downloading, Transferring, 1)];
  }

  /** At its end the cancelled worker is about to delete the package file that the retry, admitted
      after the cancellation, is transferring. */
  lemma CancelDuringAdmissionRace(key: Key, total: nat, sha: string)
    ensures var r := Run(Init(), RaceStart(key, total, sha) + (RaceScan(key) + RaceEnd(total, sha)));
      && r.Some? && 0 in r.value.workers && 1 in r.value.workers
      && TaskOf(r.value, 0).key == key && TaskOf(r.value, 1).key == key
      && r.value.workers[0].serial < r.value.workers[1].serial
      && r.value.workers[0].pc == Removing && r.value.workers[1].pc == Transferring
  {
    RaceStartRuns(key, total, sha);
    var s := Run(Init(), RaceStart(key, total, sha)).value;
    RunAppend(Init(), RaceStart(key, total, sha), RaceScan(key) + RaceEnd(total, sha));
    RaceScanRuns(key, total, sha, s);
    RunAppend(s, RaceScan(key), RaceEnd(total, sha));
    RaceEndRuns(key, total, sha, Run(s, RaceScan(key)).value);
  }
}

/** The registry object itself: its methods under the registry lock, each proved against what it
    does to the registered tasks. */
module UpdateManager {
  import opened Wrappers
  import opened DownloadTask
  import C = Coordinator

  type Id = C.Id
  type Tasks = map<Id, Task>

  datatype Outcome = ShuttingDown | CleanupPending(on: Id) | AlreadyDownloading | TooMany | Started

  datatype Answer = NotFound | Refused | Done

  predicate Blocks(tasks: Tasks, key: Key, i: Id) {
    i in tasks && tasks[i].key == key && CleaningUp(tasks[i])
  }

  predicate Duplicates(tasks: Tasks, key: Key, i: Id) {
    i in tasks && tasks[i].key == key && Active(tasks[i])
  }

  function Kept(tasks: Tasks): (kept: Tasks)
    ensures kept.Keys <= tasks.Keys
    ensures forall i :: i in kept ==> kept[i] == tasks[i]
  {
    if |tasks| >= C.MAX_RUNTIME_UPDATE_OPERATIONS then map i | i in tasks && !Prunable(tasks[i]) :: tasks[i]
    else tasks
  }

  /** What one pass of the admission loop answers and leaves in the registry. */
  ghost predicate AdmissionResult(
    tasks: Tasks, closed: bool, id: Id, task: Task, outcome: Outcome, after: Tasks)
  {
    var key := task.key;
    match outcome
    case ShuttingDown => closed && after == tasks
    case CleanupPending(on) => !closed && Blocks(tasks, key, on) && after == tasks
    case AlreadyDownloading =>
      && !closed && (forall i :: !Blocks(tasks, key, i))
      && (exists i :: Duplicates(tasks, key, i)) && after == tasks
    case TooMany =>
      && !closed && (forall i :: !Blocks(tasks, key, i)) && (forall i :: !Duplicates(tasks, key, i))
      && after == Kept(tasks) && |after| >= C.MAX_RUNTIME_UPDATE_OPERATIONS
    case Started =>
      && !closed && (forall i :: !Blocks(tasks, key, i)) && (forall i :: !Duplicates(tasks, key, i))
      && |Kept(tasks)| < C.MAX_RUNTIME_UPDATE_OPERATIONS
      && after == Kept(tasks)[id := task]
  }

  /** What a full registry forgets: 64 operations or more, and of those the finished ones whose outcome is
      final. */
  predicate Forgotten(tasks: Tasks, i: Id)
    requires i in tasks
  {
    |tasks| >= 64 && tasks[i].finished && tasks[i].status in {Completed, Failed, Cancelled}
  }

  lemma KeptExactly(tasks: Tasks)
    ensures forall i :: i in Kept(tasks) <==> i in tasks && !Forgotten(tasks, i)
    ensures forall i :: i in Kept(tasks) ==> Kept(tasks)[i] == tasks[i]
  {
  }

  /** The answers of the admission in terms of the fields of the tasks. */
  lemma AnswerExactly(tasks: Tasks, closed: bool, id: Id, task: Task, outcome: Outcome, after: Tasks)
    requires AdmissionResult(tasks, closed, id, task, outcome, after)
    ensures outcome.ShuttingDown? <==> closed
    ensures outcome.CleanupPending? <==>
      !closed && exists i :: i in tasks && tasks[i].key == task.key && tasks[i].cancelled && !tasks[i].finished
    ensures outcome.AlreadyDownloading? <==>
      && !closed && !outcome.CleanupPending?
      && exists i :: i in tasks && tasks[i].key == task.key && tasks[i].status in {Queued, Downloading}
    ensures outcome.TooMany? || outcome.Started? ==> (outcome.Started? <==> |Kept(tasks)| < 64)
    ensures after ==
      if outcome.Started? then Kept(tasks)[id := task] else if outcome.TooMany? then Kept(tasks) else tasks
  {
    if i :| i in tasks && tasks[i].key == task.key && tasks[i].cancelled && !tasks[i].finished {
      assert Blocks(tasks, task.key, i);
    }
    if i :| i in tasks && tasks[i].key == task.key && tasks[i].status in {Queued, Downloading} {
      assert Duplicates(tasks, task.key, i);
    }
  }

  lemma SameSize<A, B>(a: map<Id, A>, b: map<Id, B>)
    requires a.Keys == b.Keys
    ensures |a| == |b|
  {
    assert |a| == |a.Keys| && |b| == |b.Keys|;
  }

  lemma KeptAre(tasks: Tasks)
    requires |tasks| >= C.MAX_RUNTIME_UPDATE_OPERATIONS
    ensures forall i :: i in Kept(tasks) <==> i in tasks && !Prunable(tasks[i])
  {
    hide Prunable;
  }

  /** Every registered operation has a task object of its own. */
  ghost predicate OwnObjects(operations: map<Id, RuntimeDownloadTask>) {
    forall i, j :: i in operations && j in operations && operations[i] == operations[j] ==> i == j
  }

  lemma FewerObjects(all: map<Id, RuntimeDownloadTask>, some: map<Id, RuntimeDownloadTask>)
    requires OwnObjects(all) && forall i :: i in some ==> i in all && some[i] == all[i]
    ensures OwnObjects(some) && some.Values <= all.Values && some.Keys <= all.Keys
  {
  }

  class RuntimeUpdateManager {
    var operations: map<Id, RuntimeDownloadTask>
    var shuttingDown: bool

    ghost predicate Valid()
      reads this
    {
      OwnObjects(operations)
    }

    ghost function View(): (tasks: Tasks)
      reads this, operations.Values
      ensures tasks.Keys == operations.Keys
    {
      map i | i in operations :: operations[i].View()
    }

    constructor ()
      ensures Valid() && View() == map[] && !shuttingDown
    {
      operations, shuttingDown := map[], false;
    }

    method FindCleaningUp(key: Key) returns (found: Option<Id>)
      ensures found.Some? ==> Blocks(View(), key, found.value)
      ensures found.None? ==> forall i :: !Blocks(View(), key, i)
    {
      var todo := operations.Keys;
      while todo != {}
        invariant todo <= operations.Keys
        invariant forall i :: i in operations && i !in todo ==> !Blocks(View(), key, i)
        decreases |todo|
      {
        var i :| i in todo;
        var t := operations[i];
        if t.key == key && t.cancelled && !t.finished {
          return Some(i);
        }
        todo := todo - {i};
      }
      return None;
    }

    method HasActive(key: Key) returns (found: bool)
      ensures found <==> exists i :: Duplicates(View(), key, i)
    {
      var todo := operations.Keys;
      while todo != {}
        invariant todo <= operations.Keys
        invariant forall i :: i in operations && i !in todo ==> !Duplicates(View(), key, i)
        decreases |todo|
      {
        var i :| i in todo;
        var t := operations[i];
        if t.key == key && (t.status == Queued || t.status == Downloading) {
          assert Duplicates(View(), key, i);
          return true;
        }
        todo := todo - {i};
      }
      return false;
    }

    function Retained(): (kept: map<Id, RuntimeDownloadTask>)
      reads this, operations.Values
      ensures forall i :: i in kept <==> i in operations && !Prunable(View()[i])
      ensures forall i :: i in kept ==> kept[i] == operations[i]
    {
      map i | i in operations && !Prunable(operations[i].View()) :: operations[i]
    }

    method Prune()
      requires Valid()
      modifies this`operations
      ensures Valid() && View() == Kept(old(View())) && |operations| == |View()|
      ensures operations.Values <= old(operations.Values) && operations.Keys <= old(operations.Keys)
    {
      hide OwnObjects, Prunable;
      SameSize(operations, View());
      if |operations| >= C.MAX_RUNTIME_UPDATE_OPERATIONS {
        ghost var tasks, before := View(), operations;
        KeptAre(tasks);
        hide Kept;
        operations := Retained();
        FewerObjects(before, operations);
        assert View() == Kept(tasks);
        SameSize(operations, View());
      }
    }

    method Insert(id: Id, task: RuntimeDownloadTask)
      requires Valid() && id !in operations && task !in operations.Values
      modifies this`operations
      ensures Valid() && View() == old(View())[id := task.View()]
    {
      operations := operations[id := task];
    }

    method Register(id: Id, task: RuntimeDownloadTask) returns (ok: bool)
      requires Valid() && id !in operations && task !in operations.Values
      modifies this`operations
      ensures Valid()
      ensures ok <==> |Kept(old(View()))| < C.MAX_RUNTIME_UPDATE_OPERATIONS
      ensures View() == if ok then Kept(old(View()))[id := task.View()] else Kept(old(View()))
    {
      Prune();
      if |operations| >= C.MAX_RUNTIME_UPDATE_OPERATIONS {
        return false;
      }
      Insert(id, task);
      return true;
    }

    /** One pass of the admission loop, run without interference; the caller waits and comes back
        after `CleanupPending`. */
    method TryStart(id: Id, task: RuntimeDownloadTask) returns (outcome: Outcome)
      requires Valid() && id !in operations && task !in operations.Values
      requires task.View() == NewTask(task.key, task.total, task.sha256)
      modifies this`operations
      ensures Valid()
      ensures AdmissionResult(old(View()), shuttingDown, id, task.View(), outcome, View())
    {
      hide Blocks, Duplicates, Kept, OwnObjects, NewTask, View;
      if shuttingDown {
        return ShuttingDown;
      }
      var cleaningUp := FindCleaningUp(task.key);
      if cleaningUp.Some? {
        return CleanupPending(cleaningUp.value);
      }
      var active := HasActive(task.key);
      if active {
        return AlreadyDownloading;
      }
      var registered := Register(id, task);
      return if registered then Started else TooMany;
    }

    method Cancel(id: Id) returns (answer: Answer)
      requires Valid()
      modifies operations.Values
      ensures answer == NotFound <==> id !in old(View())
      ensures answer == NotFound ==> View() == old(View())
      ensures answer != NotFound ==>
        && View() == old(View())[id := CancelledTask(old(View())[id])]
        && (answer == Done <==> old(View())[id].status == Queued || old(View())[id].status == Downloading)
        && (answer == Done ==> View()[id].status == Cancelled && View()[id].cancelled && View()[id].error == None)
        && (answer == Refused ==> View() == old(View()))
    {
      hide OwnObjects, CancelledTask;
      if id !in operations {
        return NotFound;
      }
      var ok := CancelTask(id);
      return if ok then Done else Refused;
    }

    method CancelTask(id: Id) returns (ok: bool)
      requires Valid() && id in operations
      modifies operations[id]
      ensures View() == old(View())[id := CancelledTask(old(View())[id])]
      ensures ok <==> old(View())[id].status == Queued || old(View())[id].status == Downloading
      ensures ok ==> View()[id].status == Cancelled && View()[id].cancelled && View()[id].error == None
      ensures !ok ==> View()[id] == old(View())[id]
    {
      ghost var before := View();
      ok := operations[id].Cancel();
      assert forall i :: i in operations && i != id ==> operations[i].View() == before[i];
    }

    method AnyInstalling() returns (found: bool)
      ensures found <==> exists i :: i in View() && View()[i].status == Installing
    {
      var todo := operations.Keys;
      while todo != {}
        invariant todo <= operations.Keys
        invariant forall i :: i in operations && i !in todo ==> View()[i].status != Installing
        decreases |todo|
      {
        var i :| i in todo;
        if operations[i].status == Installing {
          assert View()[i].status == Installing;
          return true;
        }
        todo := todo - {i};
      }
      return false;
    }

    method BeginInstall(id: Id) returns (answer: Answer)
      requires Valid()
      modifies operations.Values
      ensures answer == NotFound <==> id !in old(View())
      ensures answer == Done <==>
        id in old(View()) && old(View())[id].status == Verified
        && forall i :: i in old(View()) ==> old(View())[i].status != Installing
      ensures answer == Done ==>
        && View()[id].status == Installing && View()[id].error == None
        && View()[id].cancelled == old(View())[id].cancelled && View()[id].finished == old(View())[id].finished
        && forall i :: i in old(View()) && i != id ==> View()[i] == old(View())[i]
      ensures View() == if answer == Done then old(View())[id := InstallBegun(old(View())[id])] else old(View())
    {
      if id !in operations {
        return NotFound;
      }
      var busy := AnyInstalling();
      if busy {
        return Refused;
      }
      ghost var before := View();
      var ok := operations[id].BeginInstall();
      assert forall i :: i in operations && i != id ==> operations[i].View() == before[i];
      assert ok ==> View() == before[id := InstallBegun(before[id])];
      return if ok then Done else Refused;
    }

    method FinishInstall(id: Id, failure: Option<string>) returns (answer: Answer)
      requires Valid()
      modifies operations.Values
      ensures answer == (if id in old(View()) then Done else NotFound)
      ensures id in old(View()) ==>
        && View()[id].status == (if failure.Some? then Failed else Completed) && View()[id].error == failure
        && View()[id].cancelled == old(View())[id].cancelled && View()[id].finished == old(View())[id].finished
        && forall i :: i in old(View()) && i != id ==> View()[i] == old(View())[i]
      ensures View() ==
              if id in old(View()) then old(View())[id := InstallFinished(old(View())[id], failure)]
              else old(View())
    {
      if id !in operations {
        return NotFound;
      }
      ghost var before := View();
      operations[id].SetStatus(if failure.Some? then Failed else Completed, failure);
      assert forall i :: i in operations && i != id ==> operations[i].View() == before[i];
      return Done;
    }

    method CancelRegistered()
      requires Valid()
      modifies operations.Values
      ensures forall i :: i in operations ==> operations[i].View() == CancelledTask(old(operations[i].View()))
    {
      hide CancelledTask, Active, View;
      var todo := operations.Keys;
      while todo != {}
        invariant todo <= operations.Keys
        invariant forall i :: i in operations ==>
          operations[i].View() ==
          if i in todo then old(operations[i].View()) else CancelledTask(old(operations[i].View()))
        decreases |todo|
      {
        var i :| i in todo;
        var _ := operations[i].Cancel();
        todo := todo - {i};
      }
    }

    /** Closes admission first, then cancels whatever is still queued or downloading. */
    method Shutdown()
      requires Valid()
      modifies this`shuttingDown, operations.Values
      ensures shuttingDown
      ensures View() == map i | i in old(View()) :: CancelledTask(old(View())[i])
    {
      hide CancelledTask, OwnObjects;
      shuttingDown := true;
      CancelRegistered();
    }
  }
}

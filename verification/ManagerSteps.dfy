/** The manager's operations, run without interference, are the coordinator's steps. */
module ManagerSteps {
  import opened Wrappers
  import opened DownloadTask
  import opened UpdateManager
  import C = Coordinator

  ghost function Registered(s: C.State): Tasks {
    map i | i in s.registry && i in s.workers :: C.TaskOf(s, i)
  }

  lemma RegisteredAre(s: C.State)
    requires C.Inv(s)
    ensures Registered(s).Keys == s.registry <= s.workers.Keys
    ensures forall i :: i in s.registry ==> Registered(s)[i] == C.TaskOf(s, i)
  {
  }

  // ---------------------------------------------------------------------------------------------
  // Admission
  // ---------------------------------------------------------------------------------------------

  lemma {:induction false} ScanAll(s: C.State, todo: set<Id>) returns (actions: seq<C.Action>)
    requires C.Inv(s) && s.lock.Scanning? && s.lock.pending == todo
    requires forall i :: i in todo ==> !Blocks(Registered(s), s.lock.key, i)
    ensures C.Run(s, actions) == Some(s.(lock := C.Scanning(s.lock.key, {})))
    decreases |todo|
  {
    if todo == {} {
      return [];
    }
    var i :| i in todo;
    var a := C.AdmitScan(i);
    assert i in s.registry && !(C.TaskOf(s, i).key == s.lock.key && CleaningUp(C.TaskOf(s, i))) by {
      assert !Blocks(Registered(s), s.lock.key, i);
    }
    C.StepInv(s, a);
    var rest := ScanAll(C.Next(s, a), todo - {i});
    actions := [a] + rest;
    C.RunStep(s, actions);
  }

  lemma {:induction false} CheckAll(s: C.State, todo: set<Id>) returns (actions: seq<C.Action>)
    requires C.Inv(s) && s.lock.Checking? && s.lock.pending == todo
    requires forall i :: i in todo ==> !Duplicates(Registered(s), s.lock.key, i)
    ensures C.Run(s, actions) == Some(s.(lock := C.Checking(s.lock.key, {})))
    decreases |todo|
  {
    if todo == {} {
      return [];
    }
    var i :| i in todo;
    var a := C.AdmitCheck(i);
    assert i in s.registry && !(C.TaskOf(s, i).key == s.lock.key && Active(C.TaskOf(s, i))) by {
      assert !Duplicates(Registered(s), s.lock.key, i);
    }
    C.StepInv(s, a);
    var rest := CheckAll(C.Next(s, a), todo - {i});
    actions := [a] + rest;
    C.RunStep(s, actions);
  }

  /** When the manager starts a download, the coordinator has a run of admission steps alone that
      ends with the same registered tasks, and that run keeps one owner per key. */
  lemma StartedIsAdmission(s: C.State, id: Id, key: Key, total: nat, sha256: string, after: Tasks)
    returns (actions: seq<C.Action>)
    requires C.Inv(s) && C.Exclusive(s) && s.lock.Free? && id !in s.workers
    requires AdmissionResult(Registered(s), s.closed, id, NewTask(key, total, sha256), Started, after)
    ensures C.Run(s, actions).Some? && Registered(C.Run(s, actions).value) == after
    ensures C.Exclusive(C.Run(s, actions).value)
  {
    var checked := s.(lock := C.Checking(key, {}));
    var insert := C.AdmitInsert(id, total, sha256);
    var scans := ScansPass(s, key);
    C.RunInv(s, scans);
    InsertAdmits(s, checked, insert, after);
    actions := scans + [insert];
    hide *;
    C.RunAppend(s, scans, [insert]);
    RunOne(checked, insert);
  }

  /** The answers that refuse give the lock back and leave all else as it is, ... */
  lemma PendingGivesWay(s: C.State, key: Key, on: C.Id)
    requires C.Inv(s) && s.lock.Free? && !s.closed && Blocks(Registered(s), key, on)
    ensures C.Run(s, [C.AdmitBegin(key), C.AdmitScan(on)]) == Some(s)
  {
    RegisteredAre(s);
    assert C.Enabled(s, C.AdmitBegin(key));
    assert C.Next(C.Next(s, C.AdmitBegin(key)), C.AdmitScan(on)) == s;
    TwoSteps(s, C.AdmitBegin(key), C.AdmitScan(on));
  }

  lemma DuplicateGivesWay(s: C.State, key: Key, duplicate: C.Id) returns (actions: seq<C.Action>)
    requires C.Inv(s) && s.lock.Free? && !s.closed
    requires (forall i :: !Blocks(Registered(s), key, i)) && Duplicates(Registered(s), key, duplicate)
    ensures C.Run(s, actions) == Some(s)
  {
    RegisteredAre(s);
    var begin, scanned, check := C.AdmitBegin(key), C.AdmitScanned, C.AdmitCheck(duplicate);
    var s1 := s.(lock := C.Scanning(key, s.registry));
    var s2 := s.(lock := C.Scanning(key, {}));
    var s3 := s.(lock := C.Checking(key, s.registry));
    assert C.Enabled(s, begin) && C.Enabled(s2, scanned) && C.Enabled(s3, check) && C.Next(s3, check) == s;
    SameRegistered(s, s2);
    hide *;
    ScanBegins(s, begin);
    var scan := ScanAll(s1, s.registry);
    C.RunInv(s1, scan);
    ScanBegins(s2, scanned);
    actions := [begin] + (scan + [scanned, check]);
    TwoSteps(s2, scanned, check);
    C.RunAppend(s1, scan, [scanned, check]);
    RunMore(s, begin, scan + [scanned, check]);
  }

  /** ... but for what a full registry forgets. */
  lemma FullGivesWay(s: C.State, id: C.Id, key: Key, total: nat, sha256: string) returns (actions: seq<C.Action>)
    requires C.Inv(s) && s.lock.Free? && !s.closed && id !in s.workers
    requires forall i :: !Blocks(Registered(s), key, i)
    requires forall i :: !Duplicates(Registered(s), key, i)
    requires |Kept(Registered(s))| >= C.MAX_RUNTIME_UPDATE_OPERATIONS
    ensures C.Run(s, actions) == Some(s.(registry := Kept(Registered(s)).Keys))
  {
    var insert, checked := C.AdmitInsert(id, total, sha256), s.(lock := C.Checking(key, {}));
    InvNames(s);
    KeptIsPruned(s);
    assert C.Pruned(checked) == C.Pruned(s);
    assert C.Enabled(checked, insert) && C.Next(checked, insert) == s.(registry := Kept(Registered(s)).Keys);
    var scans := ScansPass(s, key);
    actions := scans + [insert];
    hide *;
    C.RunAppend(s, scans, [insert]);
    RunOne(checked, insert);
  }

  lemma RunOne(s: C.State, a: C.Action)
    requires C.Enabled(s, a)
    ensures C.Run(s, [a]) == Some(C.Next(s, a))
  {
    C.RunStep(s, [a]);
  }

  lemma InsertAdmits(s: C.State, checked: C.State, insert: C.Action, after: Tasks)
    requires C.Inv(checked) && C.Exclusive(s) && insert.AdmitInsert? && insert.id !in s.workers
    requires checked.lock.Checking? && checked == s.(lock := C.Checking(checked.lock.key, {}))
    requires AdmissionResult(
               Registered(s), s.closed, insert.id, NewTask(checked.lock.key, insert.total, insert.sha256),
               Started, after)
    ensures C.Enabled(checked, insert) && C.Exclusive(C.Next(checked, insert))
    ensures Registered(C.Next(checked, insert)) == after
  {
    SameRegistered(s, checked);
    InvNames(checked);
    assert C.Exclusive(checked) by { hide C.Inv; }
    hide C.Next, C.Inv, C.Exclusive, C.Inserts, Registered, Kept, Blocks, Duplicates;
    InsertRegistered(checked, insert);
    InsertKeepsExclusive(checked, insert);
  }

  lemma SameRegistered(s: C.State, n: C.State)
    requires n.workers == s.workers && n.registry == s.registry
    ensures Registered(n) == Registered(s)
  {
  }

  lemma InvNames(s: C.State)
    requires C.Inv(s)
    ensures C.NamesOk(s)
  {
  }

  /** The two actions with which the scans begin change nothing but the lock. */
  lemma ScanBegins(s: C.State, a: C.Action)
    requires C.Inv(s) && C.Enabled(s, a) && (a.AdmitBegin? || a.AdmitScanned?)
    ensures C.Inv(C.Next(s, a)) && Registered(C.Next(s, a)) == Registered(s)
    ensures C.Next(s, a) ==
      s.(lock := if a.AdmitBegin? then C.Scanning(a.key, s.registry) else C.Checking(s.lock.key, s.registry))
  {
    C.StepInv(s, a);
    hide C.Inv;
  }

  lemma ScansPass(s: C.State, key: Key) returns (actions: seq<C.Action>)
    requires C.Inv(s) && s.lock.Free? && !s.closed
    requires forall i :: !Blocks(Registered(s), key, i)
    requires forall i :: !Duplicates(Registered(s), key, i)
    ensures C.Run(s, actions) == Some(s.(lock := C.Checking(key, {})))
  {
    var begin, scanned := C.AdmitBegin(key), C.AdmitScanned;
    var s1 := s.(lock := C.Scanning(key, s.registry));
    var s2 := s.(lock := C.Scanning(key, {}));
    assert C.Enabled(s, begin) && C.Enabled(s2, scanned);
    SameRegistered(s, s2);
    hide *;
    ScanBegins(s, begin);
    var scan := ScanAll(s1, s.registry);
    C.RunInv(s1, scan);
    ScanBegins(s2, scanned);
    var check := CheckAll(C.Next(s2, scanned), s.registry);
    actions := [begin] + (scan + ([scanned] + check));
    RunMore(s2, scanned, check);
    C.RunAppend(s1, scan, [scanned] + check);
    RunMore(s, begin, scan + ([scanned] + check));
  }

  lemma RunMore(s: C.State, a: C.Action, rest: seq<C.Action>)
    requires C.Enabled(s, a)
    ensures C.Run(s, [a] + rest) == C.Run(C.Next(s, a), rest)
  {
    hide C.Enabled, C.Next;
    assert ([a] + rest)[1..] == rest;
  }

  lemma KeptIsPruned(s: C.State)
    requires s.registry <= s.workers.Keys
    ensures Kept(Registered(s)).Keys == C.Pruned(s) && |Kept(Registered(s))| == |C.Pruned(s)|
  {
    assert Registered(s).Keys == s.registry;
    assert |Registered(s)| == |Registered(s).Keys|;
    assert Kept(Registered(s)).Keys == C.Pruned(s);
    assert |Kept(Registered(s))| == |Kept(Registered(s)).Keys|;
  }

  lemma InsertRegistered(s: C.State, a: C.Action)
    requires s.registry <= s.workers.Keys && a.AdmitInsert? && C.Enabled(s, a)
    requires |Kept(Registered(s))| < C.MAX_RUNTIME_UPDATE_OPERATIONS
    ensures C.Inserts(s, a)
    ensures Registered(C.Next(s, a)) == Kept(Registered(s))[a.id := NewTask(s.lock.key, a.total, a.sha256)]
  {
    KeptIsPruned(s);
    assert C.Inserts(s, a);
    InsertedState(s, a);
    hide C.Next, C.Enabled, C.Inserts;
    RegisteredWith(s, C.Next(s, a), a.id, NewTask(s.lock.key, a.total, a.sha256));
  }

  lemma InsertedState(s: C.State, a: C.Action)
    requires C.Enabled(s, a) && C.Inserts(s, a)
    ensures var n := C.Next(s, a);
      && n.registry == C.Pruned(s) + {a.id} && n.workers.Keys == s.workers.Keys + {a.id} && a.id !in s.workers
      && C.TaskOf(n, a.id) == NewTask(s.lock.key, a.total, a.sha256)
      && forall i :: i in s.workers ==> C.TaskOf(n, i) == C.TaskOf(s, i)
  {
    hide C.Pruned;
  }

  lemma RegisteredWith(s: C.State, n: C.State, id: Id, task: Task)
    requires s.registry <= s.workers.Keys && id !in s.workers
    requires Kept(Registered(s)).Keys == C.Pruned(s)
    requires n.registry == C.Pruned(s) + {id} && n.workers.Keys == s.workers.Keys + {id}
    requires C.TaskOf(n, id) == task && forall i :: i in s.workers ==> C.TaskOf(n, i) == C.TaskOf(s, i)
    ensures Registered(n) == Kept(Registered(s))[id := task]
  {
    hide Kept, C.Pruned;
  }

  lemma InsertKeepsExclusive(s: C.State, a: C.Action)
    requires C.Inv(s) && C.Exclusive(s) && C.Enabled(s, a) && C.Inserts(s, a)
    requires forall i :: !Blocks(Registered(s), s.lock.key, i)
    ensures C.Exclusive(C.Next(s, a))
  {
    forall i | i in s.registry && i in s.workers
      ensures C.TaskOf(s, i).key == s.lock.key ==> !CleaningUp(C.TaskOf(s, i))
    {
      assert !Blocks(Registered(s), s.lock.key, i);
    }
    C.InsertExclusive(s, a);
  }

  // ---------------------------------------------------------------------------------------------
  // Cancelling, installing, shutting down
  // ---------------------------------------------------------------------------------------------

  /** An action on one registered worker, seen in the registry. */
  lemma MovedRegistered(s: C.State, id: Id, a: C.Action, n: C.State)
    requires C.Inv(s) && id in s.registry && id in s.workers
    requires n.workers == s.workers[id := C.Moved(s.workers[id], a)] && n.registry == s.registry
    ensures id in Registered(s) && Registered(n) == Registered(s)[id := C.Moved(s.workers[id], a).task]
  {
    hide C.Moved, C.Inv;
    assert C.NamesOk(s) by { InvNames(s); }
  }

  /** A caller that finds the operation cancels it in two steps, between which others may move. */
  lemma CancelIsSteps(s: C.State, id: Id)
    requires C.Inv(s) && s.lock.Free?
    ensures C.Enabled(s, C.CancelFetch(id)) <==> id in Registered(s)
    ensures id in Registered(s) ==>
      var r := C.Run(s, [C.CancelFetch(id), C.CancelApply(id)]);
      r.Some? && Registered(r.value) == Registered(s)[id := CancelledTask(Registered(s)[id])]
  {
    RegisteredAre(s);
    if id in s.registry {
      var a, b := C.CancelFetch(id), C.CancelApply(id);
      CancelFetched(s, id);
      hide *;
      SameRegistered(s, C.Next(s, a));
      CancelApplied(s.workers[id], id);
      MovedRegistered(C.Next(s, a), id, b, C.Next(C.Next(s, a), b));
      TwoSteps(s, a, b);
    }
  }

  lemma CancelFetched(s: C.State, id: Id)
    requires C.Inv(s) && s.lock.Free? && id in s.registry
    ensures var a, b := C.CancelFetch(id), C.CancelApply(id);
      && C.Enabled(s, a) && C.Inv(C.Next(s, a)) && C.Enabled(C.Next(s, a), b) && id in s.workers
      && C.Next(s, a).workers == s.workers && C.Next(s, a).registry == s.registry
      && C.Next(C.Next(s, a), b).workers == s.workers[id := C.Moved(s.workers[id], b)]
      && C.Next(C.Next(s, a), b).registry == s.registry
  {
    C.StepInv(s, C.CancelFetch(id));
    InvNames(s);
    hide C.Inv, C.Moved;
  }

  lemma CancelApplied(w: C.Worker, id: Id)
    ensures C.Moved(w, C.CancelApply(id)).task == CancelledTask(w.task)
  {
  }

  lemma TwoSteps(s: C.State, a: C.Action, b: C.Action)
    requires C.Enabled(s, a) && C.Enabled(C.Next(s, a), b)
    ensures C.Run(s, [a, b]) == Some(C.Next(C.Next(s, a), b))
  {
    RunOne(C.Next(s, a), b);
    RunMore(s, a, [b]);
    hide *;
    assert [a] + [b] == [a, b];
  }

  /** An install begins exactly when the coordinator's step is enabled, and with its result. */
  lemma BeginInstallIsStep(s: C.State, id: Id)
    requires C.Inv(s) && s.lock.Free?
    ensures C.Enabled(s, C.InstallBegin(id)) <==>
      id in Registered(s) && Registered(s)[id].status == Verified
      && forall i :: i in Registered(s) ==> Registered(s)[i].status != Installing
    ensures C.Enabled(s, C.InstallBegin(id)) ==>
      Registered(C.Next(s, C.InstallBegin(id))) == Registered(s)[id := InstallBegun(Registered(s)[id])]
  {
    RegisteredAre(s);
    hide C.Inv, Registered, InstallBegun;
    var a := C.InstallBegin(id);
    if C.Enabled(s, a) {
      MovedRegistered(s, id, a, C.Next(s, a));
    }
  }

  lemma FinishInstallIsStep(s: C.State, id: Id, failure: Option<string>)
    requires C.Inv(s) && id in s.installers
    ensures C.Enabled(s, C.InstallFinish(id, failure)) && id in Registered(s)
    ensures Registered(C.Next(s, C.InstallFinish(id, failure))) ==
            Registered(s)[id := InstallFinished(Registered(s)[id], failure)]
  {
    var a := C.InstallFinish(id, failure);
    RegisteredAre(s);
    assert id in s.registry;
    MovedRegistered(s, id, a, C.Next(s, a));
  }

  function CancelledOf(tasks: Tasks, which: set<Id>): Tasks {
    map i | i in tasks :: if i in which then CancelledTask(tasks[i]) else tasks[i]
  }

  lemma {:induction false} StopAll(s: C.State, todo: set<Id>) returns (actions: seq<C.Action>)
    requires C.Inv(s) && s.lock == C.Stopping(todo)
    ensures C.Run(s, actions).Some?
    ensures var n := C.Run(s, actions).value;
      C.Inv(n) && n.lock == C.Stopping({}) && n.closed && Registered(n) == CancelledOf(Registered(s), todo)
    decreases |todo|
  {
    if todo == {} {
      assert s.closed;
      actions := [];
      hide C.Inv, Registered, CancelledTask;
      assert CancelledOf(Registered(s), {}) == Registered(s);
    } else {
      hide *;
      var i :| i in todo;
      var a := C.StopCancel(i);
      StopOne(s, todo, i);
      var rest := StopAll(C.Next(s, a), todo - {i});
      actions := [a] + rest;
      RunMore(s, a, rest);
      OneMore(Registered(s), todo, i);
    }
  }

  lemma StopOne(s: C.State, todo: set<Id>, i: Id)
    requires C.Inv(s) && s.lock == C.Stopping(todo) && i in todo
    ensures C.Enabled(s, C.StopCancel(i)) && C.Inv(C.Next(s, C.StopCancel(i)))
    ensures C.Next(s, C.StopCancel(i)).lock == C.Stopping(todo - {i}) && i in Registered(s)
    ensures Registered(C.Next(s, C.StopCancel(i))) == Registered(s)[i := CancelledTask(Registered(s)[i])]
  {
    var a := C.StopCancel(i);
    RegisteredAre(s);
    assert i in s.registry;
    C.StepInv(s, a);
    MovedRegistered(s, i, a, C.Next(s, a));
  }

  lemma OneMore(tasks: Tasks, todo: set<Id>, i: Id)
    requires i in todo && i in tasks
    ensures CancelledOf(tasks[i := CancelledTask(tasks[i])], todo - {i}) == CancelledOf(tasks, todo)
  {
    hide CancelledTask;
  }

  /** A shutdown is the coordinator's, with every task cancelled that can be. */
  lemma ShutdownIsSteps(s: C.State) returns (actions: seq<C.Action>)
    requires C.Inv(s) && s.lock.Free?
    ensures C.Run(s, actions).Some?
    ensures var n := C.Run(s, actions).value;
      && n.closed && n.lock.Free?
      && Registered(n) == map i | i in Registered(s) :: CancelledTask(Registered(s)[i])
  {
    hide C.Inv, Registered, CancelledTask, C.Run;
    var first := C.Next(s, C.StopBegin);
    C.StepInv(s, C.StopBegin);
    RegisteredAre(s);
    SameRegistered(s, first);
    var middle := StopAll(first, s.registry);
    var stopped := C.Run(first, middle).value;
    SameRegistered(stopped, C.Next(stopped, C.StopEnd));
    RunOne(stopped, C.StopEnd);
    C.RunAppend(first, middle, [C.StopEnd]);
    actions := [C.StopBegin] + (middle + [C.StopEnd]);
    RunMore(s, C.StopBegin, middle + [C.StopEnd]);
  }
}

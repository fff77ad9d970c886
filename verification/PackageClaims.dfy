/** Who relies on a downloaded package. Package files are named by their SHA-256, not by the key of the
    operation, and a verified package is still needed after its worker has gone. */
module PackageClaims {
  import opened Wrappers
  import opened DownloadTask
  import opened Coordinator

  /** The task may still touch its package file, or an install is going to read it. */
  predicate Claims(t: Task) {
    Owner(t) || t.status == Verified || t.status == Installing
  }

  ghost predicate OneClaim(s: State) {
    forall i, j | i in s.workers && j in s.workers && TaskOf(s, i).sha256 == TaskOf(s, j).sha256 ::
      Claims(TaskOf(s, i)) && Claims(TaskOf(s, j)) ==> i == j
  }

  ghost predicate ClaimsRegistered(s: State) {
    forall i :: i in s.workers && Claims(TaskOf(s, i)) ==> i in s.registry
  }

  /** The packages that were fetched and have not been deleted since. */
  function NextPackages(s: State, packages: set<string>, a: Action): set<string>
    requires Enabled(s, a)
  {
    match a
    case WorkerFinish(id, None) => packages + {TaskOf(s, id).sha256}
    case WorkerRemove(id) => packages - {TaskOf(s, id).sha256}
    case _ => packages
  }

  function Packages(s: State, packages: set<string>, actions: seq<Action>): set<string>
    requires Run(s, actions).Some?
    decreases |actions|
  {
    if actions == [] then packages
    else Packages(Next(s, actions[0]), NextPackages(s, packages, actions[0]), actions[1..])
  }

  ghost predicate VerifiedHaveTheirs(s: State, packages: set<string>) {
    forall i :: i in s.workers && TaskOf(s, i).status in {Verified, Installing} ==> TaskOf(s, i).sha256 in packages
  }

  // ---------------------------------------------------------------------------------------------
  // One claim per package
  // ---------------------------------------------------------------------------------------------

  /** A claim can be given up, never regained. */
  lemma ClaimsFall(s: State, a: Action, i: Id)
    requires Inv(s) && Enabled(s, a) && i in s.workers
    ensures i in Next(s, a).workers && TaskOf(Next(s, a), i).sha256 == TaskOf(s, i).sha256
    ensures Claims(TaskOf(Next(s, a), i)) ==> Claims(TaskOf(s, i))
  {
    StepMoves(s, a, i);
    var w, w' := s.workers[i], Next(s, a).workers[i];
    assert WorkerOk(w);
    if w' != w {
      MovedClaim(w, a);
    }
    hide *;
  }

  lemma MovedClaim(w: Worker, a: Action)
    requires WorkerOk(w)
    requires a.WorkerBegin? ==> w.pc == Admitted
    requires a.WorkerProgress? || a.WorkerFinish? ==> w.pc == Transferring
    ensures Moved(w, a).task.sha256 == w.task.sha256
    ensures Claims(Moved(w, a).task) ==> Claims(w.task)
  {
  }

  lemma StepClaimsRegistered(s: State, a: Action)
    requires Inv(s) && ClaimsRegistered(s) && Enabled(s, a)
    ensures ClaimsRegistered(Next(s, a))
  {
    StepKeys(s, a);
    StepRegistry(s, a);
    PrunedKeepsClaims(s);
    forall i | i in s.workers && Claims(TaskOf(Next(s, a), i))
      ensures i in Next(s, a).registry
    {
      ClaimsFall(s, a, i);
    }
    hide Next, Enabled, Inv, Claims, Pruned;
  }

  lemma PrunedKeepsClaims(s: State)
    ensures forall i :: i in s.registry && i in s.workers && Claims(TaskOf(s, i)) ==> i in Pruned(s)
  {
  }

  /** What an admission would have to look for under the registry lock. */
  ghost predicate Unclaimed(s: State, sha256: string) {
    forall i :: i in s.registry && i in s.workers && TaskOf(s, i).sha256 == sha256 ==> !Claims(TaskOf(s, i))
  }

  /** An admission keeps one claim per package exactly when no registered task claims the package. */
  lemma InsertOneClaim(s: State, a: Action)
    requires Inv(s) && OneClaim(s) && ClaimsRegistered(s) && Enabled(s, a) && Inserts(s, a)
    ensures OneClaim(Next(s, a)) <==> Unclaimed(s, a.sha256)
  {
    var s' := Next(s, a);
    assert s'.workers == s.workers[a.id := Worker(NewTask(s.lock.key, a.total, a.sha256), Admitted, s.admissions)];
    assert Claims(TaskOf(s', a.id));
    assert forall i :: i in s.workers ==> TaskOf(s', i) == TaskOf(s, i);
    hide Next, Inv, Claims, Pruned, Enabled;
  }

  lemma StepOneClaim(s: State, a: Action)
    requires Inv(s) && OneClaim(s) && ClaimsRegistered(s) && Enabled(s, a)
    requires Inserts(s, a) ==> Unclaimed(s, a.sha256)
    ensures OneClaim(Next(s, a))
  {
    if Inserts(s, a) {
      InsertOneClaim(s, a);
    } else {
      StepKeys(s, a);
      forall i | i in s.workers
        ensures TaskOf(Next(s, a), i).sha256 == TaskOf(s, i).sha256
        ensures Claims(TaskOf(Next(s, a), i)) ==> Claims(TaskOf(s, i))
      {
        ClaimsFall(s, a, i);
      }
      hide Next, Inv, Claims, Enabled, Inserts;
    }
  }

  /** With one claim per package, the only worker that deletes a package is the only one that has it. */
  lemma StepVerifiedHaveTheirs(s: State, packages: set<string>, a: Action)
    requires Inv(s) && OneClaim(s) && Enabled(s, a) && VerifiedHaveTheirs(s, packages)
    ensures VerifiedHaveTheirs(Next(s, a), NextPackages(s, packages, a))
  {
    var s' := Next(s, a);
    StepKeys(s, a);
    hide Next, Enabled, Inv, OneClaim, NextPackages;
    forall i | i in s'.workers && TaskOf(s', i).status in {Verified, Installing}
      ensures TaskOf(s', i).sha256 in NextPackages(s, packages, a)
    {
      assert i in s.workers;
      VerifiedKept(s, packages, a, i);
    }
  }

  lemma VerifiedKept(s: State, packages: set<string>, a: Action, i: Id)
    requires Inv(s) && OneClaim(s) && Enabled(s, a) && VerifiedHaveTheirs(s, packages) && i in s.workers
    requires i in Next(s, a).workers && TaskOf(Next(s, a), i).status in {Verified, Installing}
    ensures TaskOf(Next(s, a), i).sha256 in NextPackages(s, packages, a)
  {
    ClaimsFall(s, a, i);
    VerifiedBefore(s, a, i);
    if a.WorkerRemove? {
      RemoverClaims(s, a);
      assert Claims(TaskOf(s, i));
    }
    hide Next, Enabled, Inv, Claims;
  }

  lemma RemoverClaims(s: State, a: Action)
    requires Inv(s) && Enabled(s, a) && a.WorkerRemove?
    ensures a.id in s.workers && Claims(TaskOf(s, a.id))
  {
    assert WorkerOk(s.workers[a.id]);
    hide Inv;
  }

  lemma VerifiedBefore(s: State, a: Action, i: Id)
    requires Inv(s) && Enabled(s, a) && i in s.workers
    requires i in Next(s, a).workers && TaskOf(Next(s, a), i).status in {Verified, Installing}
    ensures TaskOf(s, i).status in {Verified, Installing} || a == WorkerFinish(i, None)
    ensures a.WorkerRemove? ==> a.id != i
  {
    StepMoves(s, a, i);
    assert WorkerOk(s.workers[i]);
    hide Next, Enabled;
  }

  /** Every admission finds its package unclaimed. */
  ghost predicate CarefulRun(s: State, actions: seq<Action>)
    decreases |actions|
  {
    actions != [] ==>
      Enabled(s, actions[0]) && (Inserts(s, actions[0]) ==> Unclaimed(s, actions[0].sha256))
      && CarefulRun(Next(s, actions[0]), actions[1..])
  }

  lemma {:induction false} CarefulRunKeeps(s: State, packages: set<string>, actions: seq<Action>)
    requires Inv(s) && ClaimsRegistered(s) && OneClaim(s) && VerifiedHaveTheirs(s, packages)
    requires CarefulRun(s, actions)
    ensures Run(s, actions).Some?
    ensures var s' := Run(s, actions).value;
      && Inv(s') && ClaimsRegistered(s') && OneClaim(s')
      && VerifiedHaveTheirs(s', Packages(s, packages, actions))
    decreases |actions|
  {
    if actions != [] {
      StepInv(s, actions[0]);
      StepClaimsRegistered(s, actions[0]);
      StepOneClaim(s, actions[0]);
      StepVerifiedHaveTheirs(s, packages, actions[0]);
      CarefulRunKeeps(Next(s, actions[0]), NextPackages(s, packages, actions[0]), actions[1..]);
    }
  }

  /** In every run in which each admission finds its package unclaimed: no two workers may touch one package
      file, whatever their keys, and a verified or installing task has its package. */
  lemma OneClaimPerPackage(actions: seq<Action>, s: State)
    requires CarefulRun(Init(), actions) && Run(Init(), actions) == Some(s)
    ensures forall i, j | i in s.workers && j in s.workers && TaskOf(s, i).sha256 == TaskOf(s, j).sha256 ::
      Touches(s.workers[i]) && Touches(s.workers[j]) ==> i == j
    ensures VerifiedHaveTheirs(s, Packages(Init(), {}, actions))
  {
    CarefulRunKeeps(Init(), {}, actions);
    forall i | i in s.workers && Touches(s.workers[i])
      ensures Claims(TaskOf(s, i))
    {
      assert WorkerOk(s.workers[i]);
    }
    hide Claims;
  }

  // ---------------------------------------------------------------------------------------------
  // When a package can be deleted
  // ---------------------------------------------------------------------------------------------

  /** The worker is deleting its package, or will if it is cancelled before its download ends. */
  predicate MayDelete(w: Worker) {
    (w.pc == Admitted && !w.task.cancelled) || w.pc == Transferring || w.pc == Removing
  }

  ghost predicate InDanger(s: State, sha256: string) {
    exists i :: i in s.workers && TaskOf(s, i).sha256 == sha256 && MayDelete(s.workers[i])
  }

  /** A run that admits nobody to this package. */
  predicate WithoutAdmission(s: State, actions: seq<Action>, sha256: string)
    decreases |actions|
  {
    actions != [] ==>
      Enabled(s, actions[0]) && !(Inserts(s, actions[0]) && actions[0].sha256 == sha256)
      && WithoutAdmission(Next(s, actions[0]), actions[1..], sha256)
  }

  predicate Deletes(s: State, actions: seq<Action>, sha256: string)
    requires WithoutAdmission(s, actions, sha256)
    decreases |actions|
  {
    actions != [] &&
    ((actions[0].WorkerRemove? && TaskOf(s, actions[0].id).sha256 == sha256)
     || Deletes(Next(s, actions[0]), actions[1..], sha256))
  }

  lemma SafeStep(s: State, a: Action, sha256: string)
    requires Inv(s) && Enabled(s, a) && !(Inserts(s, a) && a.sha256 == sha256) && !InDanger(s, sha256)
    ensures !InDanger(Next(s, a), sha256)
    ensures a.WorkerRemove? ==> TaskOf(s, a.id).sha256 != sha256
  {
    var s' := Next(s, a);
    StepKeys(s, a);
    assert Inserts(s, a) ==> TaskOf(s', a.id).sha256 != sha256;
    hide Next, Enabled, Inv, Inserts, MayDelete;
    forall i | i in s'.workers && TaskOf(s', i).sha256 == sha256
      ensures !MayDelete(s'.workers[i])
    {
      assert i in s.workers;
      SafeWorker(s, a, i);
    }
    RemoverMay(s, a);
  }

  lemma RemoverMay(s: State, a: Action)
    requires Enabled(s, a)
    ensures a.WorkerRemove? ==> MayDelete(s.workers[a.id])
  {
  }

  lemma SafeWorker(s: State, a: Action, i: Id)
    requires Inv(s) && Enabled(s, a) && i in s.workers && i in Next(s, a).workers
    ensures MayDelete(Next(s, a).workers[i]) ==> MayDelete(s.workers[i])
    ensures TaskOf(Next(s, a), i).sha256 == TaskOf(s, i).sha256
  {
    StepMoves(s, a, i);
    ClaimsFall(s, a, i);
    var w, w' := s.workers[i], Next(s, a).workers[i];
    assert WorkerOk(w);
    if w' != w {
      MovedMay(w, a);
    }
    hide *;
  }

  lemma MovedMay(w: Worker, a: Action)
    requires WorkerOk(w)
    requires a.WorkerBegin? ==> w.pc == Admitted
    requires a.WorkerProgress? || a.WorkerFinish? ==> w.pc == Transferring
    ensures MayDelete(Moved(w, a)) ==> MayDelete(w)
  {
  }

  lemma {:induction false} SafeRun(s: State, actions: seq<Action>, sha256: string)
    requires Inv(s) && WithoutAdmission(s, actions, sha256) && !InDanger(s, sha256)
    ensures !Deletes(s, actions, sha256)
    decreases |actions|
  {
    if actions != [] {
      SafeStep(s, actions[0], sha256);
      StepInv(s, actions[0]);
      SafeRun(Next(s, actions[0]), actions[1..], sha256);
    }
  }

  lemma PrependRun(s: State, a: Action, rest: seq<Action>, sha256: string)
    requires Enabled(s, a) && !a.AdmitInsert?
    requires WithoutAdmission(Next(s, a), rest, sha256) && Deletes(Next(s, a), rest, sha256)
    ensures WithoutAdmission(s, [a] + rest, sha256) && Deletes(s, [a] + rest, sha256)
  {
    assert ([a] + rest)[0] == a && ([a] + rest)[1..] == rest;
    hide Enabled, Next;
  }

  /** How a worker that may delete its package comes to do so. */
  lemma DeletingRun(s: State, i: Id) returns (actions: seq<Action>)
    requires Inv(s) && s.lock.Free? && i in s.workers && MayDelete(s.workers[i])
    ensures WithoutAdmission(s, actions, TaskOf(s, i).sha256) && Deletes(s, actions, TaskOf(s, i).sha256)
    decreases match s.workers[i].pc case Admitted => 3 case Transferring => 2 case _ => 1,
              if s.workers[i].task.cancelled then 0 else 1
  {
    var w, sha256 := s.workers[i], TaskOf(s, i).sha256;
    assert WorkerOk(w);
    if w.pc == Removing {
      actions := [WorkerRemove(i)];
      assert [WorkerRemove(i)][1..] == [];
    } else {
      var a :=
        if w.pc == Admitted then WorkerBegin(i)
        else if w.task.cancelled then WorkerFinish(i, None)
        else if i in s.fetched then CancelApply(i) else CancelFetch(i);
      assert Owner(w.task) && i in s.registry;
      StepInv(s, a);
      var next := Next(s, a);
      var rest;
      if a.CancelFetch? {
        var b := CancelApply(i);
        StepInv(next, b);
        rest := DeletingRun(Next(next, b), i);
        PrependRun(next, b, rest, sha256);
        rest := [b] + rest;
      } else {
        rest := DeletingRun(next, i);
      }
      PrependRun(s, a, rest, sha256);
      actions := [a] + rest;
    }
  }

  /** Between admissions: a package can be deleted without a further admission to it exactly if some
      worker of it has been admitted and not cancelled since, is transferring, or is deleting. */
  lemma DeletedExactly(s: State, sha256: string)
    requires Inv(s) && s.lock.Free?
    ensures InDanger(s, sha256) <==>
      exists actions :: WithoutAdmission(s, actions, sha256) && Deletes(s, actions, sha256)
  {
    if InDanger(s, sha256) {
      var i :| i in s.workers && TaskOf(s, i).sha256 == sha256 && MayDelete(s.workers[i]);
      var actions := DeletingRun(s, i);
      assert WithoutAdmission(s, actions, sha256) && Deletes(s, actions, sha256);
    } else {
      forall actions | WithoutAdmission(s, actions, sha256)
        ensures !Deletes(s, actions, sha256)
      {
        SafeRun(s, actions, sha256);
      }
    }
    hide *;
  }

  // The two runs on which an admission finds its package claimed.

  function Fresh(key: Key, total: nat, sha: string, serial: nat): Worker {
    Worker(NewTask(key, total, sha), Admitted, serial)
  }

  function FirstAdmission(key: Key, total: nat, sha: string): seq<Action> {
    [AdmitBegin(key), AdmitScanned, AdmitInsert(0, total, sha)]
  }

  function SecondAdmission(key: Key, total: nat, sha: string): seq<Action> {
    [AdmitBegin(key), AdmitScan(0), AdmitScanned, AdmitCheck(0), AdmitInsert(1, total, sha)]
  }

  function OneWorker(w: Worker): State {
    State(map[0 := w], {0}, Free, false, {}, {}, 1)
  }

  function TwoWorkers(w: Worker, v: Worker, fetched: set<Id>): State {
    State(map[0 := w, 1 := v], {0, 1}, Free, false, fetched, {}, 2)
  }

  /** Runs and the packages they leave, one action at a time. */
  lemma OneMore(s: State, packages: set<string>, a: Action, rest: seq<Action>)
    requires Enabled(s, a) && Run(Next(s, a), rest).Some?
    ensures Run(s, [a] + rest) == Run(Next(s, a), rest)
    ensures Packages(s, packages, [a] + rest) == Packages(Next(s, a), NextPackages(s, packages, a), rest)
  {
    assert ([a] + rest)[0] == a && ([a] + rest)[1..] == rest;
    hide Enabled, Next, NextPackages;
  }

  lemma {:induction false} Continued(s: State, packages: set<string>, first: seq<Action>, second: seq<Action>)
    requires Run(s, first).Some? && Run(Run(s, first).value, second).Some?
    ensures Run(s, first + second) == Run(Run(s, first).value, second)
    ensures Packages(s, packages, first + second) ==
            Packages(Run(s, first).value, Packages(s, packages, first), second)
    decreases |first|
  {
    hide Enabled, Next, NextPackages;
    if first == [] {
      assert first + second == second;
    } else {
      assert (first + second)[1..] == first[1..] + second;
      Continued(Next(s, first[0]), NextPackages(s, packages, first[0]), first[1..], second);
    }
  }

  lemma {:induction false} NoTransfer(s: State, packages: set<string>, actions: seq<Action>)
    requires Run(s, actions).Some?
    requires forall i :: 0 <= i < |actions| ==> !actions[i].WorkerFinish? && !actions[i].WorkerRemove?
    ensures Packages(s, packages, actions) == packages
    decreases |actions|
  {
    hide Enabled, Next;
    if actions != [] {
      NoTransfer(Next(s, actions[0]), packages, actions[1..]);
    }
  }

  /** Some run from the beginning ends in this state with these packages. */
  ghost predicate Reachable(s: State, packages: set<string>) {
    exists actions :: Run(Init(), actions) == Some(s) && Packages(Init(), {}, actions) == packages
  }

  lemma ReachMore(s: State, packages: set<string>, more: seq<Action>)
    requires Reachable(s, packages) && Run(s, more).Some?
    ensures Reachable(Run(s, more).value, Packages(s, packages, more))
  {
    var actions :| Run(Init(), actions) == Some(s) && Packages(Init(), {}, actions) == packages;
    Continued(Init(), {}, actions, more);
    hide Run, Packages;
  }

  lemma FirstAdmissionRuns(key: Key, total: nat, sha: string)
    ensures Run(Init(), FirstAdmission(key, total, sha)) == Some(OneWorker(Fresh(key, total, sha, 0)))
    ensures Packages(Init(), {}, FirstAdmission(key, total, sha)) == {}
  {
    var acts := FirstAdmission(key, total, sha);
    var s1 := Next(Init(), acts[0]);
    var s2 := Next(s1, acts[1]);
    var s3 := Next(s2, acts[2]);
    assert s3.workers == map[0 := Fresh(key, total, sha, 0)] && s3.registry == {0};
    assert acts[1..][1..] == acts[2..] && acts[2..][1..] == [];
    RunStep(s2, acts[2..]);
    RunStep(s1, acts[1..]);
    NoTransfer(Init(), {}, acts);
  }

  lemma SecondAdmissionRuns(w: Worker, key: Key, total: nat, sha: string, packages: set<string>)
    requires w.task.key == key ==> !CleaningUp(w.task) && !Active(w.task)
    ensures Run(OneWorker(w), SecondAdmission(key, total, sha)) ==
            Some(TwoWorkers(w, Fresh(key, total, sha, 1), {}))
    ensures Packages(OneWorker(w), packages, SecondAdmission(key, total, sha)) == packages
  {
    var acts := SecondAdmission(key, total, sha);
    var s := OneWorker(w);
    var s1 := Next(s, acts[0]);
    var s2 := Next(s1, acts[1]);
    assert s2.lock == Scanning(key, {});
    var s3 := Next(s2, acts[2]);
    var s4 := Next(s3, acts[3]);
    assert s4.lock == Checking(key, {}) && Pruned(s4) == {0};
    var s5 := Next(s4, acts[4]);
    assert s5.workers == map[0 := w, 1 := Fresh(key, total, sha, 1)] && s5.registry == {0, 1};
    RunStep(s4, acts[4..]);
    RunStep(s3, acts[3..]);
    RunStep(s2, acts[2..]);
    RunStep(s1, acts[1..]);
    RunStep(s, acts);
    NoTransfer(s, packages, acts);
  }

  /** Two keys, one package: both admissions pass, and both workers transfer the same file. */
  lemma TwoKeysOnePackage(k: Key, other: Key, total: nat, sha: string)
    requires k != other
    ensures exists s ::
      && Reachable(s, {}) && 0 in s.workers && 1 in s.workers
      && TaskOf(s, 0).key == k && TaskOf(s, 1).key == other && TaskOf(s, 0).sha256 == TaskOf(s, 1).sha256 == sha
      && s.workers[0].pc == s.workers[1].pc == Transferring
  {
    var w, v := Fresh(k, total, sha, 0), Fresh(other, total, sha, 1);
    var s := TwoWorkers(w, v, {});
    FirstAdmissionRuns(k, total, sha);
    assert Reachable(OneWorker(w), {});
    SecondAdmissionRuns(w, other, total, sha, {});
    ReachMore(OneWorker(w), {}, SecondAdmission(other, total, sha));
    var acts := [WorkerBegin(0), WorkerBegin(1)];
    var s1 := Next(s, acts[0]);
    var s2 := Next(s1, acts[1]);
    assert acts[1..] == [WorkerBegin(1)] && acts[1..][1..] == [];
    RunStep(s1, acts[1..]);
    RunStep(s, acts);
    NoTransfer(s, {}, acts);
    ReachMore(s, {}, acts);
  }

  function Bytes(w: Worker, n: nat, status: Status, pc: Pc, finished: bool): Worker {
    Worker(
      w.task.(bytes := n, status := status, cancelled := status == Cancelled, finished := finished), pc, w.serial)
  }

  function Download(): seq<Action> {
    [WorkerBegin(0), WorkerFinish(0, None), WorkerExit(0)]
  }

  function Cancelling(): seq<Action> {
    [WorkerBegin(1), CancelFetch(1), CancelApply(1)]
  }

  function Deleting(): seq<Action> {
    [WorkerFinish(1, None), WorkerRemove(1)]
  }

  lemma DownloadRuns(w: Worker)
    requires w == Fresh(w.task.key, w.task.total, w.task.sha256, 0)
    ensures Run(OneWorker(w), Download()) == Some(OneWorker(Bytes(w, w.task.total, Verified, Done, true)))
  {
    var acts, s := Download(), OneWorker(w);
    var s1 := Next(s, acts[0]);
    var s2 := Next(s1, acts[1]);
    var s3 := Next(s2, acts[2]);
    assert s3.workers == map[0 := Bytes(w, w.task.total, Verified, Done, true)];
    RunStep(s2, acts[2..]);
    RunStep(s1, acts[1..]);
    RunStep(s, acts);
  }

  lemma CancellingRuns(w: Worker, v: Worker)
    requires v == Fresh(v.task.key, v.task.total, v.task.sha256, 1)
    ensures Run(TwoWorkers(w, v, {}), Cancelling()) ==
            Some(TwoWorkers(w, Moved(Moved(v, WorkerBegin(1)), CancelApply(1)), {}))
  {
    var acts, s := Cancelling(), TwoWorkers(w, v, {});
    var s1 := Next(s, acts[0]);
    var s2 := Next(s1, acts[1]);
    var s3 := Next(s2, acts[2]);
    assert s3.fetched == {} && s3.workers == map[0 := w, 1 := Moved(Moved(v, WorkerBegin(1)), CancelApply(1))];
    RunStep(s2, acts[2..]);
    RunStep(s1, acts[1..]);
    RunStep(s, acts);
  }

  lemma DeletingRuns(w: Worker, v: Worker, packages: set<string>)
    requires v.task.cancelled && v.pc == Transferring
    ensures Run(TwoWorkers(w, v, {}), Deleting()).Some?
    ensures var s := Run(TwoWorkers(w, v, {}), Deleting()).value; 0 in s.workers && s.workers[0] == w
    ensures v.task.sha256 !in Packages(TwoWorkers(w, v, {}), packages, Deleting())
  {
    var acts, s := Deleting(), TwoWorkers(w, v, {});
    var s1 := Next(s, acts[0]);
    assert acts[1..] == [acts[1]] + [] && acts == [acts[0]] + acts[1..];
    OneMore(s1, packages + {v.task.sha256}, acts[1], []);
    OneMore(s, packages, acts[0], acts[1..]);
  }

  /** A retry admitted after the first download was verified, and cancelled: the first is still verified,
      its package is gone. */
  lemma VerifiedPackageLost(key: Key, total: nat, sha: string)
    ensures exists s, packages ::
      && Reachable(s, packages) && 0 in s.workers
      && TaskOf(s, 0).status == Verified && TaskOf(s, 0).sha256 == sha && sha !in packages
  {
    var w, v := Fresh(key, total, sha, 0), Fresh(key, total, sha, 1);
    var verified := Bytes(w, total, Verified, Done, true);
    var cancelled := Moved(Moved(v, WorkerBegin(1)), CancelApply(1));
    assert cancelled.task.cancelled && cancelled.pc == Transferring && cancelled.task.sha256 == sha;
    assert w.task.total == total && !CleaningUp(verified.task) && !Active(verified.task);
    FirstAdmissionRuns(key, total, sha);
    assert Reachable(OneWorker(w), {});
    DownloadRuns(w);
    hide Run, Packages, Reachable, FirstAdmission, SecondAdmission, Download, Cancelling, Deleting;
    ReachMore(OneWorker(w), {}, Download());
    var some := Packages(OneWorker(w), {}, Download());
    SecondAdmissionRuns(verified, key, total, sha, some);
    ReachMore(OneWorker(verified), some, SecondAdmission(key, total, sha));
    CancellingRuns(verified, v);
    ReachMore(TwoWorkers(verified, v, {}), some, Cancelling());
    var last := Packages(TwoWorkers(verified, v, {}), some, Cancelling());
    DeletingRuns(verified, cancelled, last);
    ReachMore(TwoWorkers(verified, cancelled, {}), last, Deleting());
  }
}

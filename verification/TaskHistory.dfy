/** The status of a download as a closed form of what happened to it, over every interleaving. */
module TaskHistory {
  import opened Wrappers
  import opened DownloadTask
  import opened Coordinator

  type Event = Action -> bool

  /** Some action was such an event. */
  ghost predicate Had(past: seq<Action>, event: Event) {
    exists k :: 0 <= k < |past| && event(past[k])
  }

  /** Some action was such an event, and none before it was one of the other kind. */
  ghost predicate HadBefore(past: seq<Action>, event: Event, other: Event) {
    exists k :: 0 <= k < |past| && event(past[k]) && forall j :: 0 <= j < k ==> !other(past[j])
  }

  function Begins(i: Id): Event { (a: Action) => a == WorkerBegin(i) }

  function Cancels(i: Id): Event { (a: Action) => a == CancelApply(i) || a == StopCancel(i) }

  function Ends(i: Id): Event { (a: Action) => a.WorkerFinish? && a.id == i }

  function EndsWell(i: Id): Event { (a: Action) => a == WorkerFinish(i, None) }

  function EndsBadly(i: Id): Event { (a: Action) => a.WorkerFinish? && a.id == i && a.failure.Some? }

  function Installs(i: Id): Event { (a: Action) => a == InstallBegin(i) }

  function Installed(i: Id): Event { (a: Action) => a == InstallFinish(i, None) }

  function InstallFailed(i: Id): Event { (a: Action) => a.InstallFinish? && a.id == i && a.failure.Some? }

  predicate About(i: Id, a: Action) {
    (a.WorkerBegin? || a.WorkerFinish? || a.CancelApply? || a.StopCancel? || a.InstallBegin? || a.InstallFinish?)
    && a.id == i
  }

  lemma HadNext(past: seq<Action>, a: Action, event: Event)
    ensures Had(past + [a], event) <==> Had(past, event) || event(a)
  {
    var longer := past + [a];
    assert longer[|past|] == a;
    assert forall k :: 0 <= k < |past| ==> longer[k] == past[k];
    if k :| 0 <= k < |past| && event(past[k]) {
      assert event(longer[k]);
    }
  }

  lemma HadBeforeNext(past: seq<Action>, a: Action, event: Event, other: Event)
    ensures HadBefore(past + [a], event, other) <==>
            HadBefore(past, event, other) || (event(a) && !Had(past, other))
  {
    var longer := past + [a];
    assert longer[|past|] == a;
    assert forall k :: 0 <= k < |past| ==> longer[k] == past[k];
    if k :| 0 <= k < |past| && event(past[k]) && forall j :: 0 <= j < k ==> !other(past[j]) {
      assert event(longer[k]);
    }
    if event(a) && !Had(past, other) {
      assert event(longer[|past|]);
    }
  }

  /** What has happened to a task. */
  datatype Facts = Facts(
    begun: bool, cancelled: bool, ended: bool, cancelledFirst: bool, fetched: bool, failed: bool, installs: bool,
    installed: bool, installFailed: bool)

  ghost function FactsOf(past: seq<Action>, i: Id): Facts {
    Facts(
      Had(past, Begins(i)), Had(past, Cancels(i)), Had(past, Ends(i)), HadBefore(past, Cancels(i), Ends(i)),
      HadBefore(past, EndsWell(i), Cancels(i)), HadBefore(past, EndsBadly(i), Cancels(i)), Had(past, Installs(i)),
      Had(past, Installed(i)), Had(past, InstallFailed(i)))
  }

  function Noted(f: Facts, i: Id, a: Action): Facts {
    Facts(
      f.begun || Begins(i)(a), f.cancelled || Cancels(i)(a), f.ended || Ends(i)(a),
      f.cancelledFirst || (Cancels(i)(a) && !f.ended), f.fetched || (EndsWell(i)(a) && !f.cancelled),
      f.failed || (EndsBadly(i)(a) && !f.cancelled), f.installs || Installs(i)(a),
      f.installed || Installed(i)(a), f.installFailed || InstallFailed(i)(a))
  }

  lemma FactsNext(past: seq<Action>, i: Id, a: Action)
    ensures FactsOf(past + [a], i) == Noted(FactsOf(past, i), i, a)
  {
    HadNext(past, a, Begins(i));
    HadNext(past, a, Cancels(i));
    HadNext(past, a, Ends(i));
    HadBeforeNext(past, a, Cancels(i), Ends(i));
    HadBeforeNext(past, a, EndsWell(i), Cancels(i));
    HadBeforeNext(past, a, EndsBadly(i), Cancels(i));
    HadNext(past, a, Installs(i));
    HadNext(past, a, Installed(i));
    HadNext(past, a, InstallFailed(i));
    hide Had, HadBefore;
  }

  predicate Fits(w: Worker, f: Facts, installing: bool) {
    var status := w.task.status;
    && (status == Queued <==> !f.begun && !f.cancelled)
    && (status == Downloading <==> f.begun && !f.ended && !f.cancelled)
    && (status == Verified <==> f.fetched && !f.installs)
    && (status == Installing <==> f.installs && !f.installed && !f.installFailed)
    && (status == Installing <==> installing)
    && (status == Completed <==> f.installed)
    && (status == Failed <==> f.failed || f.installFailed)
    && (status == Cancelled <==> f.cancelledFirst)
    && (w.task.error.Some? <==> status == Failed)
    && (f.ended || f.installs || f.installed || f.installFailed ==> w.pc != Admitted && w.pc != Transferring)
    && (f.ended ==> f.begun) && (f.begun <== w.pc == Transferring)
    && (f.fetched ==> w.task.bytes == w.task.total)
    && (f.installed || f.installFailed ==> f.installs)
    && (f.installs ==> f.fetched) && (f.fetched ==> f.ended)
    && (w.pc == Admitted ==> !f.begun)
    && (f.cancelledFirst ==> f.cancelled)
    && (f.cancelled && !f.ended ==> f.cancelledFirst)
  }

  lemma FitsNext(w: Worker, f: Facts, installing: bool, i: Id, a: Action, after: bool)
    requires WorkerOk(w) && Fits(w, f, installing)
    requires About(i, a)
    requires a.WorkerBegin? ==> w.pc == Admitted
    requires a.WorkerFinish? ==> w.pc == Transferring
    requires a.InstallBegin? ==> w.task.status == Verified && after
    requires a.InstallFinish? ==> installing && !after
    requires !a.InstallBegin? && !a.InstallFinish? ==> installing == after
    ensures Fits(Moved(w, a), Noted(f, i, a), after)
  {
    if a.InstallBegin? || a.InstallFinish? {
      FitsInstalling(w, f, installing, i, a, after);
    } else if a.WorkerFinish? {
      FitsEnding(w, f, installing, i, a);
    } else {
      FitsBeginning(w, f, installing, i, a);
    }
    hide *;
  }

  lemma FitsBeginning(w: Worker, f: Facts, installing: bool, i: Id, a: Action)
    requires WorkerOk(w) && Fits(w, f, installing) && a in {WorkerBegin(i), CancelApply(i), StopCancel(i)}
    requires a.WorkerBegin? ==> w.pc == Admitted
    ensures Fits(Moved(w, a), Noted(f, i, a), installing)
  {
  }

  lemma FitsEnding(w: Worker, f: Facts, installing: bool, i: Id, a: Action)
    requires WorkerOk(w) && Fits(w, f, installing)
    requires a.WorkerFinish? && a.id == i && w.pc == Transferring
    ensures Fits(Moved(w, a), Noted(f, i, a), installing)
  {
  }

  lemma FitsInstalling(w: Worker, f: Facts, installing: bool, i: Id, a: Action, after: bool)
    requires WorkerOk(w) && Fits(w, f, installing)
    requires (a.InstallBegin? || a.InstallFinish?) && a.id == i
    requires a.InstallBegin? ==> w.task.status == Verified && after
    requires a.InstallFinish? ==> installing && !after
    ensures Fits(Moved(w, a), Noted(f, i, a), after)
  {
  }

  /** No other action than those about a task changes what it is to its past. */
  lemma FitsOther(w: Worker, f: Facts, installing: bool, i: Id, a: Action)
    requires WorkerOk(w) && Fits(w, f, installing)
    requires !About(i, a)
    requires a.WorkerProgress? && a.id == i ==> w.pc == Transferring
    requires a.WorkerRemove? && a.id == i ==> w.pc == Removing
    requires a.WorkerExit? && a.id == i ==> w.pc == Exiting
    ensures Noted(f, i, a) == f && Fits(w, f, installing)
    ensures (a.WorkerProgress? || a.WorkerRemove? || a.WorkerExit? || a.WorkerAbandon?) && a.id == i ==>
      Fits(Moved(w, a), f, installing)
  {
  }

  lemma StepFits(s: State, f: Facts, i: Id, a: Action)
    requires Inv(s) && Enabled(s, a) && i in s.workers
    requires Fits(s.workers[i], f, i in s.installers)
    ensures i in Next(s, a).workers
    ensures Fits(Next(s, a).workers[i], Noted(f, i, a), i in Next(s, a).installers)
  {
    var w, installing, after := s.workers[i], i in s.installers, i in Next(s, a).installers;
    assert WorkerOk(w);
    StepInstallers(s, a);
    if About(i, a) {
      AboutMoves(s, a, i);
      hide *;
      FitsNext(w, f, installing, i, a, after);
    } else {
      OtherMoves(s, a, i);
      hide *;
      FitsOther(w, f, installing, i, a);
    }
  }

  lemma AboutMoves(s: State, a: Action, i: Id)
    requires Inv(s) && Enabled(s, a) && i in s.workers && About(i, a)
    ensures i in Next(s, a).workers && Next(s, a).workers[i] == Moved(s.workers[i], a)
    ensures a.WorkerBegin? ==> s.workers[i].pc == Admitted
    ensures a.WorkerFinish? ==> s.workers[i].pc == Transferring
    ensures a.InstallBegin? ==> TaskOf(s, i).status == Verified && i in Next(s, a).installers
    ensures a.InstallFinish? ==> i in s.installers && i !in Next(s, a).installers
    ensures !a.InstallBegin? && !a.InstallFinish? ==> (i in s.installers <==> i in Next(s, a).installers)
  {
    hide Moved;
  }

  lemma OtherMoves(s: State, a: Action, i: Id)
    requires Inv(s) && Enabled(s, a) && i in s.workers && !About(i, a)
    ensures i in Next(s, a).workers && (i in s.installers <==> i in Next(s, a).installers)
    ensures
      || Next(s, a).workers[i] == s.workers[i]
      || ((a.WorkerProgress? || a.WorkerRemove? || a.WorkerExit? || a.WorkerAbandon?) && a.id == i &&
          Next(s, a).workers[i] == Moved(s.workers[i], a))
    ensures a.WorkerProgress? && a.id == i ==> s.workers[i].pc == Transferring
    ensures a.WorkerRemove? && a.id == i ==> s.workers[i].pc == Removing
    ensures a.WorkerExit? && a.id == i ==> s.workers[i].pc == Exiting
  {
    StepInstallers(s, a);
    StepMoves(s, a, i);
    hide Moved;
  }

  /** A task that is not there yet has no past. */
  lemma StepAbsent(s: State, i: Id, a: Action)
    requires Inv(s) && Enabled(s, a) && i !in s.workers
    ensures !About(i, a)
    ensures i in Next(s, a).workers ==>
      Next(s, a).workers[i] == Worker(NewTask(s.lock.key, a.total, a.sha256), Admitted, s.admissions) &&
      i !in Next(s, a).installers
  {
    StepKeys(s, a);
    StepInstallers(s, a);
    hide Moved;
  }

  const NOTHING := Facts(false, false, false, false, false, false, false, false, false)

  /** Every task fits its past, and those to come have none. */
  ghost predicate AllFit(s: State, past: seq<Action>) {
    && (forall i :: i in s.workers ==> Fits(s.workers[i], FactsOf(past, i), i in s.installers))
    && (forall i :: i !in s.workers ==> FactsOf(past, i) == NOTHING)
  }

  lemma StepAllFit(s: State, past: seq<Action>, a: Action)
    requires Inv(s) && Enabled(s, a) && AllFit(s, past)
    ensures AllFit(Next(s, a), past + [a])
  {
    var n := Next(s, a);
    StepKeys(s, a);
    hide Inv, Enabled, Next, FactsOf, Fits, About;
    forall i: Id
      ensures if i in n.workers then Fits(n.workers[i], FactsOf(past + [a], i), i in n.installers)
              else FactsOf(past + [a], i) == NOTHING
    {
      FactsNext(past, i, a);
      if i in s.workers {
        StepFits(s, FactsOf(past, i), i, a);
      } else {
        StepAbsent(s, i, a);
        NotNoted(i, a);
        if i in n.workers {
          FreshFits(n.workers[i]);
        }
      }
    }
  }

  lemma NotNoted(i: Id, a: Action)
    requires !About(i, a)
    ensures Noted(NOTHING, i, a) == NOTHING
  {
  }

  lemma FreshFits(w: Worker)
    requires w.task == NewTask(w.task.key, w.task.total, w.task.sha256) && w.pc == Admitted
    ensures Fits(w, NOTHING, false)
  {
  }

  lemma {:induction false} RunAllFit(s: State, past: seq<Action>, actions: seq<Action>)
    requires Inv(s) && AllFit(s, past) && Run(s, actions).Some?
    ensures AllFit(Run(s, actions).value, past + actions)
    decreases |actions|
  {
    if actions == [] {
      assert past + actions == past;
    } else {
      StepInv(s, actions[0]);
      StepAllFit(s, past, actions[0]);
      assert past + actions == past + [actions[0]] + actions[1..];
      RunAllFit(Next(s, actions[0]), past + [actions[0]], actions[1..]);
    }
  }

  lemma NothingYet(i: Id)
    ensures FactsOf([], i) == NOTHING
  {
  }

  lemma InitFits()
    ensures AllFit(Init(), [])
  {
    forall i: Id
      ensures FactsOf([], i) == NOTHING
    {
      NothingYet(i);
    }
    hide FactsOf;
  }

  lemma FitsSays(actions: seq<Action>, s: State, i: Id)
    requires i in s.workers && Fits(s.workers[i], FactsOf(actions, i), i in s.installers)
    ensures var status := TaskOf(s, i).status;
      && (status == Queued <==> !Had(actions, Begins(i)) && !Had(actions, Cancels(i)))
      && (status == Downloading <==>
            Had(actions, Begins(i)) && !Had(actions, Ends(i)) && !Had(actions, Cancels(i)))
      && (status == Verified <==> HadBefore(actions, EndsWell(i), Cancels(i)) && !Had(actions, Installs(i)))
      && (status == Installing <==>
            Had(actions, Installs(i)) && !Had(actions, Installed(i)) && !Had(actions, InstallFailed(i)))
      && (status == Completed <==> Had(actions, Installed(i)))
      && (status == Failed <==> HadBefore(actions, EndsBadly(i), Cancels(i)) || Had(actions, InstallFailed(i)))
      && (status == Cancelled <==> HadBefore(actions, Cancels(i), Ends(i)))
      && (TaskOf(s, i).error.Some? <==> status == Failed)
      && (status in {Verified, Installing, Completed} ==> TaskOf(s, i).bytes == TaskOf(s, i).total)
  {
    hide Had, HadBefore;
  }

  /** What the status says of the past of a task, and the past of its status, in every interleaving. */
  lemma StatusIs(actions: seq<Action>, s: State, i: Id)
    requires Run(Init(), actions) == Some(s) && i in s.workers
    ensures var status := TaskOf(s, i).status;
      && (status == Queued <==> !Had(actions, Begins(i)) && !Had(actions, Cancels(i)))
      && (status == Downloading <==>
            Had(actions, Begins(i)) && !Had(actions, Ends(i)) && !Had(actions, Cancels(i)))
      && (status == Verified <==> HadBefore(actions, EndsWell(i), Cancels(i)) && !Had(actions, Installs(i)))
      && (status == Installing <==>
            Had(actions, Installs(i)) && !Had(actions, Installed(i)) && !Had(actions, InstallFailed(i)))
      && (status == Completed <==> Had(actions, Installed(i)))
      && (status == Failed <==> HadBefore(actions, EndsBadly(i), Cancels(i)) || Had(actions, InstallFailed(i)))
      && (status == Cancelled <==> HadBefore(actions, Cancels(i), Ends(i)))
      && (TaskOf(s, i).error.Some? <==> status == Failed)
      && (status in {Verified, Installing, Completed} ==> TaskOf(s, i).bytes == TaskOf(s, i).total)
  {
    InitFits();
    assert Inv(Init());
    RunAllFit(Init(), [], actions);
    assert [] + actions == actions;
    hide Fits, FactsOf, Had, HadBefore, Run;
    FitsSays(actions, s, i);
  }

  // ---------------------------------------------------------------------------------------------
  // Every worker can end
  // ---------------------------------------------------------------------------------------------

  /** A progress report is noted and changes nothing else. */
  lemma ProgressNoted(s: State, i: Id, bytes: nat)
    requires Enabled(s, WorkerProgress(i, bytes))
    ensures var n := Next(s, WorkerProgress(i, bytes));
      n == s.(workers := n.workers) && n.workers == s.workers[i := s.workers[i].(task := TaskOf(s, i).(bytes := bytes))]
  {
  }

  /** How many steps a worker has at most before it. */
  function StepsLeft(pc: Pc): nat {
    match pc
    case Admitted => 4
    case Transferring => 3
    case Removing => 2
    case Exiting => 1
    case Done => 0
  }

  /** The next step of a worker that goes on, with this outcome if it is transferring. */
  function NextOf(w: Worker, i: Id, failure: Option<string>): Action
    requires w.pc != Done
  {
    match w.pc
    case Admitted => WorkerBegin(i)
    case Transferring => WorkerFinish(i, failure)
    case Removing => WorkerRemove(i)
    case Exiting => WorkerExit(i)
  }

  function EndingOf(w: Worker, i: Id, failure: Option<string>): seq<Action>
    decreases StepsLeft(w.pc)
  {
    if w.pc == Done then []
    else
      var a := NextOf(w, i, failure);
      if StepsLeft(Moved(w, a).pc) < StepsLeft(w.pc) then [a] + EndingOf(Moved(w, a), i, failure) else []
  }

  /** Whatever holds the lock: each step of a worker brings it nearer to its end, and its own next steps, at
      most four, take it there. The admission that waits for a cancelled worker does not wait in vain. */
  lemma {:induction false} WorkerEnds(s: State, i: Id, failure: Option<string>)
    requires Inv(s) && i in s.workers
    ensures var actions := EndingOf(s.workers[i], i, failure);
      && |actions| <= 4 && Run(s, actions).Some?
      && i in Run(s, actions).value.workers && Run(s, actions).value.workers[i].pc == Done
      && TaskOf(Run(s, actions).value, i).finished && !CleaningUp(TaskOf(Run(s, actions).value, i))
    decreases StepsLeft(s.workers[i].pc)
  {
    hide *;
    EndingWithin(s.workers[i], i, failure);
    if s.workers[i].pc == Done {
      EndedWorker(s, i, failure);
    } else {
      var a := NextOf(s.workers[i], i, failure);
      OwnStep(s, i, failure);
      StepInv(s, a);
      WorkerEnds(Next(s, a), i, failure);
      EndingFirst(s.workers[i], i, failure);
      RunFirst(s, a, EndingOf(Next(s, a).workers[i], i, failure));
    }
  }

  lemma EndedWorker(s: State, i: Id, failure: Option<string>)
    requires Inv(s) && i in s.workers && s.workers[i].pc == Done
    ensures EndingOf(s.workers[i], i, failure) == [] && Run(s, []) == Some(s)
    ensures TaskOf(s, i).finished && !CleaningUp(TaskOf(s, i))
  {
    assert WorkerOk(s.workers[i]);
    hide Inv;
  }

  lemma OwnStep(s: State, i: Id, failure: Option<string>)
    requires Inv(s) && i in s.workers && s.workers[i].pc != Done
    ensures var a := NextOf(s.workers[i], i, failure);
      && Enabled(s, a) && i in Next(s, a).workers && Next(s, a).workers[i] == Moved(s.workers[i], a)
      && StepsLeft(Next(s, a).workers[i].pc) < StepsLeft(s.workers[i].pc)
  {
    hide Inv;
  }

  lemma EndingFirst(w: Worker, i: Id, failure: Option<string>)
    requires w.pc != Done
    ensures var a := NextOf(w, i, failure);
      StepsLeft(Moved(w, a).pc) < StepsLeft(w.pc) ==> EndingOf(w, i, failure) == [a] + EndingOf(Moved(w, a), i, failure)
  {
  }

  lemma RunFirst(s: State, a: Action, rest: seq<Action>)
    requires Enabled(s, a)
    ensures Run(s, [a] + rest) == Run(Next(s, a), rest)
  {
    hide Enabled, Next;
    assert ([a] + rest)[1..] == rest;
  }

  lemma {:induction false} EndingWithin(w: Worker, i: Id, failure: Option<string>)
    ensures |EndingOf(w, i, failure)| <= StepsLeft(w.pc) <= 4
    decreases StepsLeft(w.pc)
  {
    if w.pc != Done {
      var a := NextOf(w, i, failure);
      if StepsLeft(Moved(w, a).pc) < StepsLeft(w.pc) {
        EndingWithin(Moved(w, a), i, failure);
      }
    }
  }
}

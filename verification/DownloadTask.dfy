/** One runtime download: the record that its worker, a cancelling caller and an installer share.
    Every method below is one region of the program that holds the task's own lock, so each of
    them is a single atomic step of the coordinator protocol. */
module DownloadTask {
  import opened Wrappers

  datatype Status = Queued | Downloading | Verified | Installing | Completed | Failed | Cancelled

  datatype Key = Key(name: string, version: string, platform: string, architecture: string)

  /** `sha256` names the package file in the cache, whatever the key. */
  datatype Task = Task(
    key: Key, total: nat, sha256: string, status: Status, bytes: nat, error: Option<string>,
    cancelled: bool, finished: bool)

  function NewTask(key: Key, total: nat, sha256: string): Task {
    Task(key, total, sha256, Queued, 0, None, false, false)
  }

  /** The status says that a worker is queued or transferring. */
  predicate Active(t: Task) {
    t.status == Queued || t.status == Downloading
  }

  /** Cancelled, but the worker has not yet dropped its completion guard. */
  predicate CleaningUp(t: Task) {
    t.cancelled && !t.finished
  }

  /** The task may still touch its cache files. */
  predicate Owner(t: Task) {
    Active(t) || CleaningUp(t)
  }

  /** What a full registry may forget. */
  predicate Prunable(t: Task) {
    t.finished && (t.status == Completed || t.status == Failed || t.status == Cancelled)
  }

  function Begun(t: Task): Task {
    if t.cancelled then t else t.(status := Downloading, error := None)
  }

  function Finished(t: Task, error: Option<string>): Task {
    if t.cancelled then t.(status := Cancelled, error := None)
    else if error.Some? then t.(status := Failed, error := error)
    else t.(status := Verified, bytes := t.total, error := None)
  }

  function InstallBegun(t: Task): Task {
    if t.status == Verified then t.(status := Installing, error := None) else t
  }

  function InstallFinished(t: Task, error: Option<string>): Task {
    t.(status := if error.Some? then Failed else Completed, error := error)
  }

  function CancelledTask(t: Task): Task {
    if Active(t) then t.(cancelled := true, status := Cancelled, error := None) else t
  }

  /** Upper bound on how many more times a task can change its status. */
  function Rank(s: Status): nat {
    match s
    case Queued => 4
    case Downloading => 3
    case Verified => 2
    case Installing => 1
    case _ => 0
  }

  class RuntimeDownloadTask {
    const key: Key
    const total: nat
    const sha256: string
    var status: Status
    var error: Option<string>
    var cancelled: bool
    var bytes: nat
    var finished: bool

    function View(): Task
      reads this
    {
      Task(key, total, sha256, status, bytes, error, cancelled, finished)
    }

    constructor (key: Key, total: nat, sha256: string)
      ensures this.key == key && this.total == total && this.sha256 == sha256
      ensures status == Queued && error == None && bytes == 0 && !cancelled && !finished
      ensures View() == NewTask(key, total, sha256)
    {
      this.key, this.total, this.sha256 := key, total, sha256;
      status, error, cancelled, bytes, finished := Queued, None, false, 0, false;
    }

    method BeginDownload() returns (started: bool)
      modifies this
      ensures started <==> !old(cancelled)
      ensures started ==> status == Downloading && error == None
      ensures !started ==> status == old(status) && error == old(error)
      ensures cancelled == old(cancelled) && bytes == old(bytes) && finished == old(finished)
      ensures View() == Begun(old(View()))
    {
      if cancelled {
        return false;
      }
      status := Downloading;
      error := None;
      return true;
    }

    method SetProgress(downloaded: nat)
      modifies this`bytes
      ensures View() == old(View()).(bytes := downloaded)
    {
      bytes := downloaded;
    }

    /** Returns whether the worker has to remove the package it has just fetched. */
    method FinishDownload(failure: Option<string>) returns (cancelledMeanwhile: bool)
      modifies this
      ensures cancelledMeanwhile <==> old(cancelled)
      ensures status == (if old(cancelled) then Cancelled else if failure.Some? then Failed else Verified)
      ensures error == (if old(cancelled) then None else failure)
      ensures bytes == (if status == Verified then total else old(bytes))
      ensures cancelled == old(cancelled) && finished == old(finished)
      ensures View() == Finished(old(View()), failure)
    {
      if cancelled {
        status := Cancelled;
        error := None;
        return true;
      }
      if failure.Some? {
        status := Failed;
      } else {
        SetProgress(total);
        status := Verified;
      }
      error := failure;
      return false;
    }

    method BeginInstall() returns (ok: bool)
      modifies this
      ensures ok <==> old(status) == Verified
      ensures ok ==> status == Installing && error == None
      ensures !ok ==> status == old(status) && error == old(error)
      ensures cancelled == old(cancelled) && bytes == old(bytes) && finished == old(finished)
      ensures View() == InstallBegun(old(View()))
    {
      if status != Verified {
        return false;
      }
      status := Installing;
      error := None;
      return true;
    }

    method SetStatus(newStatus: Status, newError: Option<string>)
      modifies this
      ensures View() == old(View()).(status := newStatus, error := newError)
    {
      status := newStatus;
      error := newError;
    }

    method Cancel() returns (ok: bool)
      modifies this
      ensures ok <==> old(status) == Queued || old(status) == Downloading
      ensures ok ==> status == Cancelled && cancelled && error == None
      ensures !ok ==> status == old(status) && cancelled == old(cancelled) && error == old(error)
      ensures bytes == old(bytes) && finished == old(finished)
      ensures View() == CancelledTask(old(View()))
    {
      if !(status == Queued || status == Downloading) {
        return false;
      }
      cancelled := true;
      status := Cancelled;
      error := None;
      return true;
    }

    /** Dropping the worker's completion guard. */
    method DropCompletion()
      modifies this`finished
      ensures View() == old(View()).(finished := true)
    {
      finished := true;
    }
  }
}

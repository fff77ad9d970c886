# fabDev: models and proofs

fabDev manages a local web development environment: it downloads and installs runtimes (PHP, Node.js,
MariaDB), selects their active versions, edits the hosts file, the shell profile and the PATH, and
runs local proxies. This project models the parts of it whose correctness is a matter of protocol,
history or arithmetic, and proves what they keep. `dafny verify dfyconfig.toml` checks everything.

## What is modelled

**Downloads as a protocol** (`DownloadTask`, `Coordinator`, `TaskHistory`, `UpdateManager`, `ManagerSteps`,
`PackageClaims`). `DownloadTask` is the
record that a worker, a cancelling caller and an installer share; each method is one region under the
task's own lock. `Coordinator` is the whole protocol as a step relation: the admission loop scans the
registry task by task while it holds the registry lock, workers and cancelling callers move in
between, shutdown cancels one task at a time. `TaskHistory` says what the status of a task means in terms of
everything that happened to it. `UpdateManager` is the registry object; `ManagerSteps` shows
that its operations are runs of the coordinator's steps. `PackageClaims` is about the package files, which
are named by their digest and needed beyond the end of their download.

**Installing a runtime** (`RuntimeFiles`, `RuntimeInstall`, `RuntimeSelection`, `RuntimeRequests`). The runtime directory
is a map from paths to nodes. Every step on it may fail at any time, a failed recursive removal leaves
any part of a directory, a failed write anything at its path; a ghost counter tells how many steps
failed. Begin, commit and roll back are methods over it, each equal to a function of the tree when no
step fails. `RuntimeSelection` adds the operations on the active selection and whole runs of all of
them; `RuntimeRequests` says which requests are taken and what they leave, path by path, without the
functions the methods are proved against.

**Downloading one file** (`PackageFiles`, `ContentRange`, `ResumableDownload`, `DownloadRuns`;
`Segments`, `SegmentFiles`, `SegmentedRuns`, `SegmentedEnd`). The resumable download is one attempt as a method whose
environment (server, cancellation, disk) does what it likes, and then any number of attempts. The
segmented download is the loops over the segment files, and a step machine of sessions in which up to
four segments are fetched in any interleaving and the process may stop anywhere; `SegmentedEnd` shows that an
honest server finishes the package from wherever sessions left it. SHA-256 is an arbitrary
function `hash`; a hasher is the bytes it was fed.

**The catalog** (`Catalog`, `CivilDate`, `Timestamp`). Which catalog is accepted, the order in which
the accepted document and the note about it reach the disk, and what a crash at each point leaves; the
calendar arithmetic and the timestamps behind catalog expiry.

**Proxies** (`Domains`, `Proxy`, `ProxyRuns`, `ProxySettings`, `ProxyManager`, `Health`). The registry of proxy
connections as a value with one function per operation, its invariant over all runs with any outcome of
binding a port, and the manager object proved against those functions; `ProxySettings` says what an input makes of each field, and what
each operation leaves. `Health` is the tracker with
hysteresis, whose counters are shown to mean something about the whole history of checks.

**Edited texts** (`Text`, `Hosts`, `ManagedDomains`, `ShellProfile`, `PathEntries`, `PathRecognition`, `PathRestore`,
`PathIntegration`, `PathBackup`). The managed blocks of the hosts file over whole runs of updates; disabling and
restoring Herd's PHP lines in a shell profile; taking Herd's entries out of the PATH and putting them back,
also when the PATH entry that the PHP and Node.js integrations share has come or gone in between.

`Wrappers` holds the option and result types, and what it means that an answer is the error of the first check
that fails.

## Where the code falls short of what one would expect

In each case the model does what the code does, a lemma gives the run or the input, and another lemma
says exactly when the expected property holds.

- A download can be cancelled while a retry with the same key is being admitted, between the two scans
  of the registry. The cancelled worker can then delete the package the retry is fetching
  (`Coordinator.CancelDuringAdmissionRace`). An admission keeps one owner per key if and only if no task
  of the key is still cleaning up when it inserts (`Coordinator.InsertExclusive`).
- Admission looks at keys and at unfinished downloads only. Two keys with one digest can transfer the same
  file (`PackageClaims.TwoKeysOnePackage`), and a retry that is admitted after a download was verified, and
  cancelled, deletes the verified package (`PackageClaims.VerifiedPackageLost`); an install then fails its
  check. An admission keeps one claim per package if and only if no registered task claims the package
  (`PackageClaims.InsertOneClaim`); between admissions a package can be deleted exactly while a worker of
  it is on its way (`PackageClaims.DeletedExactly`).
- `accepted-catalog.json` is removed before its successor takes its name. A crash in between loses the
  protection against older catalogs (`Catalog.CrashLosesSequence`); it is the only point that does
  (`Catalog.NoteLostExactly`, `Catalog.NeverBack`).
- A Herd line of a shell profile that ends in CR LF comes back without its CR, one with a CR in the
  middle or one that starts like an end marker cannot be restored (`ShellProfile.MarkThenRestore`,
  `ShellProfile.LookalikeNotRestored`).
- Herd entries of the PATH that differ only in case, quotes or slashes come back once
  (`PathEntries.RemoveThenRestore`), and an entry after them may be put back at a position past the end
  (`PathEntries.RepeatClamps`, `PathEntries.NeverClampedIff`).
- The positions of Herd entries are taken before the PATH entry of the integrations comes to the front, or
  while it is there. If Node.js keeps the entry when PHP is disabled, or the entry was there before PHP was
  enabled and goes with it, Herd entries can come back on the wrong side of others
  (`PathIntegration.NodeReorders`, `PathIntegration.SomePathReordered`); `PathIntegration.OthersAfter` says
  exactly when they do not.
- The timestamp reader takes a plus sign for the first digit of any field below ten except the year
  (`Timestamp.AcceptedExactly`, `Timestamp.CanonicalExactly`).
- Domains of stored proxy settings are compared as they are written, so that two connections can serve
  one host name (`ProxyRuns.SameHostTwice`). The domains of user input are normalized, so this needs rows in
  the database that are not (crates/agent/src/main.rs:634-661); host names stay distinct over all
  runs if and only if there is none (`ProxyRuns.HostsStayDistinct`).

Rolling back an install selects the version that was active before. The library does not stop the removal
of that version in the meantime (`RuntimeSelection.RemovingThePriorSelection`, with the exact condition in
`RuntimeSelection.RollbackSelection`); it relies on its caller's lock. The agent holds `lifecycle_operations`
from begin to commit or roll back and for every removal (crates/agent/src/main.rs:888-936), so its
runs are those of `RuntimeSelection.SelectionSafe`.

## Model

| member | source | states |
|---|---|---|
| `DownloadTask.RuntimeDownloadTask.BeginDownload` | crates/agent/src/main.rs:164-175 | a worker starts unless it was cancelled before; a cancelled task stays cancelled |
| `DownloadTask.RuntimeDownloadTask.FinishDownload` | crates/agent/src/main.rs:190-208 | the outcome is verified, failed, or cancelled if a cancellation came first, and the caller is told which; the cancelled one has to delete its package |
| `DownloadTask.RuntimeDownloadTask.Cancel` | crates/agent/src/main.rs:224-240 | cancels exactly a queued or downloading task, leaves any other untouched |
| `Coordinator.RunInv` | crates/agent/src/main.rs:248-434 | the invariant of the protocol is kept by every run of interleaved steps |
| `Coordinator.ReachableSafe` | crates/agent/src/main.rs:311-327 | in every interleaving the registry holds at most 64 operations, at most one is installing, and every worker that may still touch its cache files is registered |
| `Coordinator.AfterShutdown` | crates/agent/src/main.rs:422-430 | once a shutdown has released the registry lock, nothing is admitted again and nothing is queued or downloading again |
| `Coordinator.StatusRank` | crates/agent/src/main.rs:164-240 | along any run the status changes of a task are bounded by a decreasing rank; completed, failed and cancelled are final |
| `Coordinator.InsertExclusive` | crates/agent/src/main.rs:277-327 | an insertion keeps one owner of the cache files per key if and only if no task of the key is cleaning up at that moment |
| `Coordinator.OneOwnerPerKey` | crates/agent/src/main.rs:271-362 | in every run in which no cancel of the key lands inside its admission: two tasks of a key never own their files at once, and an older worker never touches them after a retry with its key was admitted |
| `Coordinator.CancelDuringAdmissionRace` | crates/agent/src/main.rs:277-309 | the run that breaks it: at its end the cancelled worker is about to delete what the retry is transferring |
| `TaskHistory.StatusIs` | crates/agent/src/main.rs:164-240 | in every interleaving the status of a task is a closed form of what happened to it: verified if and only if its download ended well before any cancel and no install began, completed if and only if an install of it ended without failure, failed, cancelled and the others likewise; it has an error exactly if it failed |
| `TaskHistory.ProgressNoted` | crates/agent/src/main.rs:177-179 | a progress report changes nothing but the bytes of its task |
| `TaskHistory.WorkerEnds` | crates/agent/src/main.rs:333-362 | whoever holds the lock, at most four steps of its own take a worker to its end, so that the admission that waits for its clean-up can go on |
| `PackageClaims.InsertOneClaim` | crates/agent/src/main.rs:271-328 | an admission keeps one claim per package file, whatever the keys, if and only if no registered task is active, cleaning up, verified or installing with that package |
| `PackageClaims.OneClaimPerPackage` | crates/agent/src/main.rs:271-362 | in every run in which each admission finds its package unclaimed: no two workers touch one package file, and every verified or installing task has its package |
| `PackageClaims.DeletedExactly` | crates/agent/src/main.rs:333-361 | between admissions a package can be deleted by some run without a further admission to it if and only if a worker of it is admitted and not cancelled, transferring, or deleting |
| `PackageClaims.TwoKeysOnePackage` | crates/updater/src/runtime_updates.rs:853-855 | a run in which the workers of two keys transfer the same file |
| `PackageClaims.VerifiedPackageLost` | crates/agent/src/main.rs:297-328 | a run in which a task is verified and its package was deleted by a cancelled retry |
| `UpdateManager.RuntimeUpdateManager.FindCleaningUp` | crates/agent/src/main.rs:277-286 | finds a cancelled, unfinished task of the key exactly if there is one |
| `UpdateManager.RuntimeUpdateManager.HasActive` | crates/agent/src/main.rs:297-310 | true exactly if a task of the key is queued or downloading |
| `UpdateManager.RuntimeUpdateManager.Prune` | crates/agent/src/main.rs:311-322 | a full registry loses exactly its finished, settled tasks |
| `UpdateManager.RuntimeUpdateManager.TryStart` | crates/agent/src/main.rs:271-328 | which of the five answers an admission gives, and the registry it leaves |
| `UpdateManager.AnswerExactly` | crates/agent/src/main.rs:271-328 | each of the five answers in terms of the fields of the registered tasks: cancelled and unfinished, queued or downloading, fewer than 64 |
| `UpdateManager.KeptExactly` | crates/agent/src/main.rs:311-322 | a registry of 64 loses exactly the finished tasks that are completed, failed or cancelled |
| `UpdateManager.RuntimeUpdateManager.Cancel` | crates/agent/src/main.rs:376-385 | cancels the named task alone; unknown ids change nothing |
| `UpdateManager.RuntimeUpdateManager.BeginInstall` | crates/agent/src/main.rs:387-399 | succeeds exactly on a verified task while no other is installing |
| `UpdateManager.RuntimeUpdateManager.FinishInstall` | crates/agent/src/main.rs:401-420 | the named task is completed if there was no failure and failed with that failure otherwise; all others are untouched |
| `UpdateManager.RuntimeUpdateManager.Shutdown` | crates/agent/src/main.rs:422-430 | admission is closed and every task is cancelled that can be |
| `ManagerSteps.StartedIsAdmission` | crates/agent/src/main.rs:271-328 | a start by the manager is a run of the coordinator's admission steps with the same registry at its end, and keeps one owner per key |
| `ManagerSteps.PendingGivesWay` | crates/agent/src/main.rs:277-296 | an admission that finds a task of its key cleaning up gives the lock back and changes nothing |
| `ManagerSteps.DuplicateGivesWay` | crates/agent/src/main.rs:297-310 | so does one that finds an active task of its key |
| `ManagerSteps.FullGivesWay` | crates/agent/src/main.rs:311-325 | and one that finds no room, but for what a full registry forgets |
| `ManagerSteps.CancelIsSteps` | crates/agent/src/main.rs:376-385 | a cancel is the two steps of the coordinator, enabled exactly for a registered id, with its result |
| `ManagerSteps.BeginInstallIsStep` | crates/agent/src/main.rs:387-399 | the condition of an install is exactly that of the coordinator's step, and so is its result |
| `ManagerSteps.FinishInstallIsStep` | crates/agent/src/main.rs:401-420 | the end of an install is the coordinator's step |
| `ManagerSteps.ShutdownIsSteps` | crates/agent/src/main.rs:422-430 | a shutdown is a run of the coordinator's steps with every task cancelled that can be |
| `RuntimeFiles.RetryPermissionDenied` | crates/runtime/src/lib.rs:1850-1868 | goes on only while permission is denied, at most as often as allowed, and returns the last outcome |
| `RuntimeFiles.FileSystem.RemoveDirectory` | crates/runtime/src/lib.rs:1821-1848 | removal with retries: gone, or some part of the directory left; a missing path counts as removed |
| `RuntimeFiles.FileSystem.RenameDirectory` | crates/runtime/src/lib.rs:1829-1848 | rename with retries: moved, or nothing changed |
| `RuntimeInstall.SwitchCurrent` | crates/runtime/src/lib.rs:1870-1901 | selects the version; a failure leaves the selection as it was on Unix, as it was or absent on Windows |
| `RuntimeInstall.StagePackage` | crates/runtime/src/lib.rs:1399-1431 | on success the staging directory holds the package with the requested receipt; otherwise nothing but the staging directory has changed |
| `RuntimeInstall.Swap` | crates/runtime/src/lib.rs:1433-1443 | the two renames; if one step fails all directories are where they were, after any number of failures the old directory is in place or set aside |
| `RuntimeInstall.Begin` | crates/runtime/src/lib.rs:1343-1462 | with no failed step the result and the tree are exactly those specified, every refusal included; an error after at most one failed step leaves every version directory, selection and marker as it was; after any number of failures the old directory still exists; nothing of other runtimes changes |
| `RuntimeRequests.BeginAccepts` | crates/runtime/src/lib.rs:1343-1462 | which requests open a transaction, in terms of the request and the tree alone: valid names, digest and sequence, the right digest, a valid selection, no backup, nothing installed or a directory without a receipt or with a valid one of another SHA-256, a readable archive with the version, and a passed health check |
| `RuntimeRequests.BeginAnswers` | crates/runtime/src/lib.rs:1355-1431 | every other request is answered with the error of the first of these checks that fails |
| `RuntimeRequests.BeginNotes` | crates/runtime/src/lib.rs:1368-1449 | the transaction notes whether there was a version to replace, the selection and the removal marker |
| `RuntimeRequests.BeginLeaves` | crates/runtime/src/lib.rs:1399-1462 | the tree with an open transaction, path by path: package, backup, selection, marker, staging directory; nothing else changes |
| `RuntimeRequests.BeginLeavesAlone` | crates/runtime/src/lib.rs:1425-1431 | a refused request changes nothing, but for clearing its staging directory |
| `RuntimeRequests.PackagedIs` | crates/runtime/src/lib.rs:1415-1424 | the package is what was unpacked, with one receipt of the requested version, SHA-256 and sequence |
| `RuntimeRequests.IdentifierIs` | crates/runtime/src/lib.rs:1801-1812 | a name is letters, digits, dots, hyphens and underscores and starts with no dot |
| `RuntimeRequests.DigestIs` | crates/runtime/src/lib.rs:1355-1362 | a digest is 64 lower-case hexadecimal digits |
| `RuntimeInstall.Commit` | crates/runtime/src/lib.rs:1464-1471 | removes the backup and nothing else |
| `RuntimeInstall.Rollback` | crates/runtime/src/lib.rs:1473-1497 | succeeds exactly if no step fails and the backup is there, then leaves the specified tree; the directory set aside is never lost |
| `RuntimeInstall.RollbackRestores` | crates/runtime/src/lib.rs:1473-1497 | whatever became of the directory, the staging area and the selection since begin: rolling back restores every version directory, selection and marker |
| `RuntimeRequests.RollbackLeaves` | crates/runtime/src/lib.rs:1473-1497 | the tree after a rollback, path by path |
| `RuntimeRequests.RollbackWithoutBackup` | crates/runtime/src/lib.rs:1473-1480 | if the directory that was set aside is gone, the new one is removed and all else stays |
| `RuntimeSelection.BeginThenRollback` | crates/runtime/src/lib.rs:1343-1497 | begin and roll back is the identity on version directories, selections and markers, and leaves no backup and no staging directory |
| `RuntimeSelection.BeginThenCommit` | crates/runtime/src/lib.rs:1343-1529 | begin and commit leaves the package with a receipt of the requested SHA-256, the requested selection, no removal marker, no backup, all else as before, and the same request is then turned down as installed |
| `RuntimeSelection.Install` | crates/runtime/src/lib.rs:1283-1341 | installs only what is not there; answer and tree are the specified ones, and whatever fails the selection stays valid |
| `RuntimeSelection.InstallAnswers` | crates/runtime/src/lib.rs:1295-1324 | a request is taken if and only if it passes all checks, and is otherwise answered with the error of the first that fails; digests are compared without regard to case |
| `RuntimeSelection.InstallLeaves` | crates/runtime/src/lib.rs:1283-1341 | the tree after an installation, path by path |
| `RuntimeSelection.InstallLeavesAlone` | crates/runtime/src/lib.rs:1300-1325 | a refused one changes nothing, but for clearing its staging directory |
| `RuntimeSelection.SetActiveVersion` | crates/runtime/src/lib.rs:1724-1748 | selects exactly an installed directory, which is then the active version; a failure leaves a valid selection valid |
| `RuntimeSelection.SelectAnswers` | crates/runtime/src/lib.rs:1729-1743 | which requests are taken, and the error of the first check that fails |
| `RuntimeSelection.Deactivate` | crates/runtime/src/lib.rs:1750-1765 | removes the selection and returns it, so that none is left, or changes nothing |
| `RuntimeSelection.DeselectAnswers` | crates/runtime/src/lib.rs:1754-1758 | the answer is the selected version, or the error of the first check that fails |
| `RuntimeSelection.RemoveInstalledVersion` | crates/runtime/src/lib.rs:1767-1799 | removes exactly an installed version that is not selected; a valid selection stays valid |
| `RuntimeSelection.RemoveAnswers` | crates/runtime/src/lib.rs:1772-1796 | which removals are taken, and the error of the first check that fails |
| `RuntimeSelection.SelectionSafe` | crates/runtime/src/lib.rs:1683-1799 | over every run of installs, transactions, selections and removals every selection names an installed version, as long as nobody removes the version an open transaction would go back to |
| `RuntimeSelection.RollbackAfterOthers` | crates/runtime/src/lib.rs:1473-1497 | between begin and roll back any run of selections and of operations on other runtimes: the directories, backups, markers and selection of the runtime are then what they were before begin |
| `RuntimeSelection.RollbackSelection` | crates/runtime/src/lib.rs:1473-1497 | a rollback leaves a valid selection if and only if the version to go back to is installed or was set aside |
| `RuntimeSelection.RemovingThePriorSelection` | crates/runtime/src/lib.rs:1473-1497 | a run of these functions that ends with a selection of a removed version, without the lock that the agent holds around a transaction and around a removal |
| `RuntimeRequests.MarkLeaves` | crates/runtime/src/lib.rs:1616-1627 | marking a version as removed writes its marker and nothing else |
| `ContentRange.HeaderReads` | crates/updater/src/runtime_updates.rs:666-684 | the header names the first byte, the last byte and the size, in this order |
| `ContentRange.ByteRangeInjective` | crates/updater/src/runtime_updates.rs:666-684 | one Content-Range header names one range (section 14.4 of RFC 9110) |
| `ResumableDownload.ResumablePartial` | crates/updater/src/runtime_updates.rs:634-664 | the length and the hasher agree with the file; too long or not a file counts as nothing and is removed |
| `ResumableDownload.Receive` | crates/updater/src/runtime_updates.rs:527-604 | after every piece the file is the bytes hashed so far and at most the catalog's size; undisturbed, the outcome is that of the whole body |
| `ResumableDownload.Attempt` | crates/updater/src/runtime_updates.rs:420-604 | undisturbed, an attempt comes to the specified outcome and files; disturbed in any way it ends in one of the possible ones; an error after a cancellation leaves no partial file |
| `ResumableDownload.Download` | crates/updater/src/runtime_updates.rs:169-257 | a success means a finished file of the catalog's size and digest; a file that is not is removed first |
| `DownloadRuns.AnyServer` | crates/updater/src/runtime_updates.rs:420-604 | over any attempts against any server the partial file stays within the catalog's size and a finished file has its size and digest |
| `DownloadRuns.CondemnedStartsOver` | crates/updater/src/runtime_updates.rs:568-600 | after a mismatch or an oversized body the next attempt leaves nothing but the beginning of what it received itself |
| `DownloadRuns.HonestServer` | crates/updater/src/runtime_updates.rs:441-604 | against an honest server the partial file is a beginning of the payload through interruptions, restarts and cancellations, and a finished file is the payload |
| `DownloadRuns.Recovery` | crates/updater/src/runtime_updates.rs:441-604 | from any files, of two complete honest replies at most the first fails, and then the second brings the payload |
| `DownloadRuns.ShortIsKept` | crates/updater/src/runtime_updates.rs:551-598 | a reply with fewer bytes than are missing, broken off or not: the attempt fails, and the partial file is what was there followed by all that arrived |
| `DownloadRuns.EnoughIsDecided` | crates/updater/src/runtime_updates.rs:527-604 | a reply with as many bytes or more finishes the download if and only if they are as many, the connection held and the digest is right; what is condemned is removed |
| `DownloadRuns.NotTaken` | crates/updater/src/runtime_updates.rs:470-526 | a reply that is not taken leaves the partial file alone, unless it announces a length that contradicts it |
| `DownloadRuns.CompleteIsDecided` | crates/updater/src/runtime_updates.rs:453-467 | a partial file that is complete is verified without the server |
| `DownloadRuns.FinishedIsUsed` | crates/updater/src/runtime_updates.rs:202-209 | a finished file of the catalog's size and digest is used without the server |
| `DownloadRuns.UnfitIsRemoved` | crates/updater/src/runtime_updates.rs:202-211 | any other is removed first |
| `DownloadRuns.ResumedAfterBreaks` | crates/updater/src/runtime_updates.rs:441-604 | over any number of interrupted replies of an honest server the partial file has all bytes that ever arrived, and one complete reply from there finishes the download with the payload |
| `Segments.BuildSegments` | crates/updater/src/windows_download.rs:171-197 | non-empty segments of at most the segment size, all but the last full, from the first byte to the last, without overflow |
| `Segments.Partition` | crates/updater/src/windows_download.rs:171-197 | every byte lies in exactly one segment |
| `Segments.ClosedForm` | crates/updater/src/windows_download.rs:171-197 | segment i starts at i times the segment size, and the number of segments is the least that reaches the size |
| `Segments.CombinedPayload` | crates/updater/src/windows_download.rs:341-378 | segment files that hold their slices make up the payload |
| `SegmentFiles.Scan` | crates/updater/src/windows_download.rs:89-107 | complete files stay and count, all others are removed and listed for download in order |
| `SegmentFiles.DownloadSegmentOnce` | crates/updater/src/windows_download.rs:270-339 | succeeds, undisturbed, exactly on a reply with the requested range and length; the file is then its body, otherwise at most a beginning of it |
| `SegmentFiles.DeliversExactly` | crates/updater/src/windows_download.rs:270-339 | a reply settles a segment if and only if it is complete, for the range that was asked for, and announces no other length |
| `SegmentFiles.DownloadSegment` | crates/updater/src/windows_download.rs:229-268 | undisturbed, succeeds exactly if one of four replies delivers, with the body of the first that does; otherwise no file is left; other segments are untouched |
| `SegmentFiles.CombineAndHash` | crates/updater/src/windows_download.rs:341-378 | what is written is what is hashed and is the segment files in order; undisturbed, it succeeds exactly if all are there |
| `SegmentFiles.Cleanup` | crates/updater/src/windows_download.rs:380-384 | undisturbed, no segment file is left |
| `SegmentedRuns.RunSafe` | crates/updater/src/windows_download.rs:62-169 | over any sessions, interruptions, interleavings and orders of completion: at most four segments in flight, at most four attempts each, files match the state of their segment, and the finished file has the size and digest; from an honest server every file is a beginning of its slice and the finished file is the payload |
| `SegmentedRuns.SessionProgress` | crates/updater/src/windows_download.rs:107-146 | progress only grows and never passes the size; when all segments are settled it is the size, so that the check for an incomplete download never fires |
| `SegmentedRuns.ServedSlice` | crates/updater/src/windows_download.rs:270-339 | what an attempt keeps of an honest reply is a beginning of the segment's slice, on success the slice |
| `SegmentedEnd.SessionFinishes` | crates/updater/src/windows_download.rs:62-169 | whatever earlier sessions left of an honest server's package, one more session can finish it; no segment file is left then |
| `SegmentedEnd.FourFailures` | crates/updater/src/windows_download.rs:229-268 | after three failed attempts there is a fourth, after four the segment is given up and the session cannot conclude; no failed attempt leaves a file |
| `SegmentedEnd.StopAndCancel` | crates/updater/src/windows_download.rs:120-160 | an error keeps the segment files for the next session, a cancellation removes them; neither touches the finished file |
| `Catalog.CatalogCache.WriteAtomically` | crates/updater/src/runtime_updates.rs:736-762 | the file is replaced; a failure leaves it as it was or removed, nothing else |
| `Catalog.CatalogCache.Persist` | crates/updater/src/runtime_updates.rs:686-705 | a failure leaves the files at one of the listed points, in order: document, then note |
| `Catalog.CatalogCache.CheckForUpdates` | crates/updater/src/runtime_updates.rs:66-145 | a check takes the specified reply or none, and reports exactly what it kept |
| `Catalog.CatalogCache.CachedCatalog` | crates/updater/src/runtime_updates.rs:147-167 | the cached catalog is the accepted schema's document, validated against the note |
| `Catalog.DecideNotBefore` | crates/runtime/src/lib.rs:835-853 | what is taken is never before what was accepted; schema 2 is not left for schema 1 |
| `Catalog.TakenExactly` | crates/updater/src/runtime_updates.rs:66-145 | which document is taken: that of version 2 whenever there is one, that of version 1 if and only if there is none and version 2 was never accepted; of the right schema and not outdated |
| `Catalog.UpdateAnswers` | crates/updater/src/runtime_updates.rs:66-145 | otherwise the answer is the error of the first check that fails |
| `Catalog.ValidateAnswers` | crates/runtime/src/lib.rs:835-853 | the checks of a document against what was accepted, in their order |
| `Catalog.CachedAnswers` | crates/updater/src/runtime_updates.rs:147-167 | and those of loading from the cache |
| `Catalog.CrashPoints` | crates/updater/src/runtime_updates.rs:686-762 | the files at each point at which keeping a catalog can be cut off |
| `Catalog.NeverBack` | crates/updater/src/runtime_updates.rs:66-145 | over any checks with any replies, failures and crashes outside one point: accepted schema and sequence never go back, and equal pairs have equal SHA-256 |
| `Catalog.CachedNotBefore` | crates/updater/src/runtime_updates.rs:147-167 | at every crash point a cached load fails or tells a catalog that is not before the accepted one |
| `Catalog.FinishedIsCached` | crates/updater/src/runtime_updates.rs:147-167 | what a finished check kept can be loaded from the cache |
| `Catalog.NoteLostExactly` | crates/updater/src/runtime_updates.rs:736-762 | the note is lost exactly at the point between its removal and its replacement, and then any sequence is accepted |
| `Catalog.CrashLosesSequence` | crates/updater/src/runtime_updates.rs:736-762 | a crash there followed by an older catalog takes the accepted sequence from 7 to 3 |
| `CivilDate.DaysFromCivilCounts` | crates/runtime/src/lib.rs:1176-1192 | the formula is the count of days since 1970-01-01 by years and months, for every valid date of every year, with the day of the era within 0..146096 |
| `CivilDate.FitsInt32` | crates/runtime/src/lib.rs:1180-1192 | for the years 1970 to 9999 the era term and the result stay within 32 bits |
| `CivilDate.DateOrder` | crates/runtime/src/lib.rs:1180-1192 | day numbers are ordered as dates |
| `CivilDate.EveryDayHasADate` | crates/runtime/src/lib.rs:1180-1192 | the numbering has no gaps from 1970 on |
| `CivilDate.ValidDateIs` | crates/runtime/src/lib.rs:1160-1178 | the valid dates are those of the Gregorian calendar |
| `Timestamp.ParsePrinted` | crates/runtime/src/lib.rs:1126-1174 | a printed date-time is read back as days times 86400 plus the seconds of the day (sections 5.6 and 5.7 of RFC 3339) |
| `Timestamp.PrintedOrder` | crates/runtime/src/lib.rs:1126-1174 | read values are ordered as the calendar fields, and equal only for equal date-times |
| `Timestamp.AcceptedExactly` | crates/runtime/src/lib.rs:1126-1174 | 20 characters are accepted if and only if they are a valid date-time in which any fields below ten but the year are written with a plus sign for the first digit |
| `Timestamp.CanonicalExactly` | crates/runtime/src/lib.rs:1126-1174 | 20 accepted characters are the canonical form of a valid date-time if and only if they hold no plus sign |
| `Timestamp.CanonicalUnlessPlus` | crates/runtime/src/lib.rs:1126-1174 | without a plus sign, 20 characters are accepted if and only if they are the canonical form of a valid date-time |
| `Timestamp.PlusMonthAccepted` | crates/runtime/src/lib.rs:1148-1158 | with one, `+1` to `+9` are accepted as months |
| `Timestamp.FractionIs` | crates/runtime/src/lib.rs:1130-1147 | a fraction behind the seconds is accepted if and only if it is one or more digits, and does not count |
| `Timestamp.LongerHasFraction` | crates/runtime/src/lib.rs:1126-1147 | nothing else makes an accepted text longer than 20 characters |
| `Hosts.UpdateManagedBlock` | helpers/windows/src/hosts.rs:31-72 | the loop writes the text that the specification gives, and fails exactly when it does |
| `Hosts.RunOfUpdates` | helpers/windows/src/hosts.rs:31-72 | from any text without markers every sequence of updates succeeds and leaves the trimmed text followed by at most one block of each kind |
| `Hosts.LatestIsLastList` | helpers/windows/src/hosts.rs:31-72 | a kind has a block exactly if its last list was not empty, and it is that list |
| `Hosts.ClearBoth` | helpers/windows/src/hosts.rs:31-72 | clearing both kinds gives back the trimmed text and one CR LF |
| `Hosts.LinesAre` | helpers/windows/src/hosts.rs:39-50 | a block has one line for each domain, with the loopback address |
| `Hosts.RejectedExactly` | helpers/windows/src/hosts.rs:55-72 | a text is turned down if and only if an end marker stands without a start marker, no end marker follows the first start marker, or a marker stands behind the block |
| `Hosts.MarkersAre` | helpers/windows/src/hosts.rs:3-6 | the markers of the two kinds |
| `ManagedDomains.NormalizeDomains` | helpers/windows/src/hosts.rs:8-29 | succeeds exactly on at most 256 valid names and yields their strictly sorted list |
| `ManagedDomains.StrictlySortedUnique` | helpers/windows/src/hosts.rs:12-14 | that list is the only one |
| `ManagedDomains.LessIs` | helpers/windows/src/hosts.rs:12-14 | the order of the names: the first difference decides, and a beginning comes first |
| `ShellProfile.RestoreHerdPhpPaths` | crates/platform/src/terminal_php.rs:289-326 | the loop ends, since the text gets shorter, with the specified text or error |
| `ShellProfile.MarkHerdPhpPaths` | crates/platform/src/terminal_php.rs:262-287 | the loop builds the specified text |
| `ShellProfile.MarkThenRestore` | crates/platform/src/terminal_php.rs:262-326 | on a profile without markers marking succeeds, and restoring undoes it if and only if no Herd line holds a CR or starts like an end marker |
| `ShellProfile.RestoredMarked` | crates/platform/src/terminal_php.rs:262-326 | what marking and restoring come to for every profile without markers: an error exactly if some Herd line starts like an end marker or holds a CR in its middle, otherwise the profile without the trailing CRs of its Herd lines |
| `ShellProfile.MarkIdempotent` | crates/platform/src/terminal_php.rs:262-287 | marking twice is marking once if and only if no Herd line starts like an end marker or holds a CR before its line end |
| `ShellProfile.MarkedIsInactive` | crates/platform/src/terminal_php.rs:247-287 | after a successful marking no Herd line is active, whatever the profile was |
| `ShellProfile.LookalikeNotRestored` | crates/platform/src/terminal_php.rs:289-326 | a one-line profile with line feeds only that is not restored |
| `ShellProfile.HerdLineIs` | crates/platform/src/terminal_php.rs:247-256 | a line is Herd's if and only if it is no comment and the words path and herd/bin stand anywhere in it, letters in either case, with either slash |
| `PathEntries.RemoveHerdPhpEntries` | crates/platform/src/terminal_php.rs:618-634 | the loop splits the entries into kept ones and removed ones with their positions |
| `PathEntries.RestorePathEntries` | crates/platform/src/terminal_php.rs:636-652 | the loop puts entries back at their positions unless one that normalizes alike is there |
| `PathEntries.RemovePathEntry` | crates/platform/src/terminal_php.rs:664-673 | drops every entry that normalizes like the given one |
| `PathRecognition.HerdIs` | crates/platform/src/terminal_php.rs:590-610 | an entry is Herd's if and only if \herd\bin stands anywhere in it, letters in either case, with either slash |
| `PathRecognition.AlikeExactly` | crates/platform/src/terminal_php.rs:590-606 | two entries count as the same if and only if they agree up to white space, quotes and trailing separators around them, the direction of slashes and the case of letters |
| `PathEntries.RemoveThenRestore` | crates/platform/src/terminal_php.rs:618-652 | restoring rebuilds the entries if and only if no two Herd entries normalize alike |
| `PathEntries.NeverClampedIff` | crates/platform/src/terminal_php.rs:642-650 | restoring never inserts past the end if and only if for every entry that is put back at least as many kept entries follow it as Herd entries before it are not put back |
| `PathEntries.DistinctNeverClamped` | crates/platform/src/terminal_php.rs:642-650 | in particular never when no two Herd entries normalize alike |
| `PathEntries.RepeatClamps` | crates/platform/src/terminal_php.rs:648-648 | two Herd entries alike and a third behind them: the third is inserted past the end |
| `PathRestore.OthersComeBack` | crates/platform/src/terminal_php.rs:636-652 | after the removal the list loses or gains an entry of its own; the other entries come back in their order if and only if no two Herd entries are alike and the Herd entries stand in front, or behind, as the change requires |
| `PathIntegration.OthersAfter` | crates/platform/src/terminal_php.rs:402-451 | PHP enabled, Node.js switched any number of times, PHP disabled, from any PATH: the other entries come back in their order if and only if the entries could not be backed up, or the condition on Herd entries for the entry having come, gone or stayed holds |
| `PathIntegration.EnableThenDisable` | crates/platform/src/terminal_php.rs:402-451 | with Node.js off and the directory not on the PATH before, the whole PATH comes back if and only if no two Herd entries are alike or they could not be backed up |
| `PathIntegration.NodeRun` | crates/platform/src/terminal_node.rs:80-121 | switching Node.js leaves the other entries alone, and the whole PATH while PHP is on |
| `PathIntegration.BackupWhileOn` | crates/platform/src/terminal_php.rs:402-451 | over every run of the four operations there is a backup only while PHP is on |
| `PathIntegration.NodeReorders` | crates/platform/src/terminal_php.rs:437-448 | an entry in front of Herd's is behind it after PHP on, Node.js on, PHP off, Node.js off |
| `PathIntegration.SomePathReordered` | crates/platform/src/terminal_php.rs:437-448 | there is such a PATH |
| `PathIntegration.EnableIdempotent` | crates/platform/src/terminal_php.rs:402-424 | enabling PHP again changes neither the PATH nor the backup, from any state |
| `PathIntegration.RunOnPath` | crates/platform/src/terminal_php.rs:402-451 | over every run of the four operations: while Node.js is on its directory is on the PATH, and while PHP is on so is its directory and none of Herd's, as long as PHP is enabled only when Herd's entries can be backed up |
| `PathBackup.SavedIsLoaded` | crates/platform/src/terminal_php.rs:530-580 | Herd entries that can be backed up are loaded from the backup file as they were, with their positions and in their order |
| `PathIntegration.StorableIs` | crates/platform/src/terminal_php.rs:538-545 | what cannot be backed up: entries with a tab or a line break |
| `Domains.NormalizeIdempotent` | crates/core/src/site.rs:222-240 | a normalized domain is its own normal form |
| `Domains.DomainIs` | crates/core/src/site.rs:222-240 | a domain, position by position: its characters, what stands beside a dot, and a dot at least every 64 characters |
| `Domains.NormalizeIs` | crates/core/src/site.rs:222-240 | the normal form is the text without white space around it and dots behind it, in lower case, if that is a domain |
| `Domains.ManagedIs` | helpers/windows/src/hosts.rs:15-27 | the hosts-file helper takes every normalized domain, and of other names only those with a label that is too long |
| `Proxy.DefaultHttpsPortIs` | crates/proxy/src/lib.rs:717-719 | the default for every port: 40000 above a four-digit port, and likewise for shorter ones; a five-digit one has none |
| `Proxy.DefaultHttpsPortValid` | crates/proxy/src/lib.rs:717-739 | the default of a valid HTTP port is a valid port and not that port |
| `Proxy.NormalForm` | crates/proxy/src/lib.rs:673-681 | valid normalized settings are fixed points of normalization |
| `ProxySettings.FromInputFields` | crates/proxy/src/lib.rs:644-671 | every field of the settings is what the user gave in its trimmed form, or the default where nothing was given: the HTTPS port only of a secured connection, 120 seconds |
| `ProxySettings.AcceptedInput` | crates/proxy/src/lib.rs:644-671 | which inputs are taken, in terms of the input alone |
| `ProxySettings.FromInputAgain` | crates/proxy/src/lib.rs:644-671 | settings made from input are made again from the input that shows them, if and only if their origins and their target are in normal form |
| `ProxySettings.NormalizeFields` | crates/proxy/src/lib.rs:673-681 | what normalizing stored settings changes, field by field |
| `ProxyRuns.NoConflict` | crates/proxy/src/lib.rs:447-479 | the uniqueness check passes if and only if the id is free or replaced and ports and domain differ from those of every other connection |
| `ProxySettings.ConflictIs` | crates/proxy/src/lib.rs:447-479 | which of the three conflicts is reported: an id, a port, a domain that is taken, in this order |
| `ProxyRuns.RunInv` | crates/proxy/src/lib.rs:336-611 | over every run with any outcome of binding: ports in use and domains are pairwise distinct, keys are ids, running and failed are disjoint and stored, settings are valid and normal, what runs is what is stored |
| `ProxyRuns.RunFromEmpty` | crates/proxy/src/lib.rs:342-353 | in particular from a new manager on |
| `ProxySettings.RunListeners` | crates/proxy/src/lib.rs:336-611 | the same in terms of the fields: no two connections have a port or a domain in common, ports are 1024 or higher, timeouts 1 to 360 |
| `ProxyRuns.FailedUpdateKeeps` | crates/proxy/src/lib.rs:368-403 | a failed update leaves the stored settings as they were, and everything unless the ports were the reason |
| `ProxyRuns.UpdateUndone` | crates/proxy/src/lib.rs:368-421 | restoring what a successful update returned brings back the stored settings and, if the port can be had, what was running |
| `ProxySettings.AddExactly` | crates/proxy/src/lib.rs:439-445 | which settings are added, and the registry then |
| `ProxySettings.AddAnswers` | crates/proxy/src/lib.rs:439-445 | the error of the first check that fails otherwise |
| `ProxySettings.UpdateExactly` | crates/proxy/src/lib.rs:368-403 | which updates succeed, which fail on their ports, and what connections, running and failed then are |
| `ProxySettings.UpdateAnswers` | crates/proxy/src/lib.rs:368-403 | the error of the first check that fails otherwise |
| `ProxySettings.RestoreUpdateExactly` | crates/proxy/src/lib.rs:405-421 | the same for the undoing |
| `ProxySettings.RestoreAnswers` | crates/proxy/src/lib.rs:405-421 | and its errors |
| `ProxySettings.StartedIs` | crates/proxy/src/lib.rs:526-566 | what starting leaves: a live proxy as it is, otherwise the stored settings running, or failed |
| `ProxySettings.StoppedIs` | crates/proxy/src/lib.rs:423-437 | what stopping and removing leave |
| `ProxySettings.EventLeaves` | crates/proxy/src/lib.rs:423-591 | the events of a run that concern one connection, in terms of connections, running and failed |
| `ProxyRuns.Rebuild` | crates/proxy/src/lib.rs:343-359 | a new manager made from the list of connections stores the same |
| `ProxyRuns.HostsStayDistinct` | crates/proxy/src/lib.rs:439-479 | with distinct host names and room for one more connection: host names stay distinct over every run in which settings stored as given bring normal domains if and only if the stored domains are normal |
| `ProxyRuns.AddKeepsHosts` | crates/proxy/src/lib.rs:439-479 | an accepted connection keeps host names distinct if and only if no stored one has its host name |
| `ProxyRuns.RunNormalDomains` | crates/proxy/src/lib.rs:405-445 | domains stay in normal form as long as settings stored as given bring normal ones |
| `ProxyRuns.SameHostTwice` | crates/proxy/src/lib.rs:439-479 | two connections stored for one host name |
| `ProxyManager.ProxyManager.AddSettings` | crates/proxy/src/lib.rs:439-445 | the registry becomes the specified one, or stays |
| `ProxyManager.ProxyManager.Update` | crates/proxy/src/lib.rs:368-403 | stop, store, start, and back again if the ports cannot be had, come to the specified result and registry, and keep the invariant |
| `ProxyManager.ProxyManager.RestoreUpdate` | crates/proxy/src/lib.rs:405-421 | the same for the undoing |
| `ProxyManager.ProxyManager.Start` | crates/proxy/src/lib.rs:526-566 | a live proxy is left alone, a finished one is replaced, a failed bind is noted |
| `ProxyManager.ProxyManager.StartAll` | crates/proxy/src/lib.rs:592-600 | afterwards every connection runs or has failed, live proxies are the same, settings are unchanged |
| `ProxyManager.ProxyManager.StopAll` | crates/proxy/src/lib.rs:602-610 | nothing runs, nothing has failed, the connections stay |
| `ProxyManager.ProxyManager.List` | crates/proxy/src/lib.rs:355-359 | every connection once, in the order of its HTTP port |
| `ProxyManager.NewManager` | crates/proxy/src/lib.rs:343-353 | adding one by one comes to the specified registry or the first error |
| `Health.ConnectionHealth.RecordPeriodicSuccess` | crates/proxy/src/lib.rs:153-182 | reports a recovery exactly when the periodic error is cleared, and then renews the client |
| `Health.ConnectionHealth.RecordRequestFailure` | crates/proxy/src/lib.rs:184-222 | the counters are those of the history with the failure added |
| `Health.ConnectionHealth.LastError` | crates/proxy/src/lib.rs:261-268 | no error exactly if none of the three is set, in the order listener, request, periodic |
| `Health.PeriodicClosedForm` | crates/proxy/src/lib.rs:132-182 | for every history the periodic error is set if and only if three consecutive failures have not been followed by two consecutive successes |
| `Health.PeriodicMessage` | crates/proxy/src/lib.rs:132-152 | its text is that of the latest failure that was at least the third in a row |
| `Health.RequestClosedForm` | crates/proxy/src/lib.rs:184-236 | for every history the request error is set if and only if fewer than two request successes, and no recovery if the failure was of a recoverable kind, came after the latest request failure; it carries that failure |
| `Health.RequestCount` | crates/proxy/src/lib.rs:184-236 | the failures that are logged with it are those since there was no request error |
| `Health.GenerationClosedForm` | crates/proxy/src/lib.rs:908-926 | the client generation is one plus the number of recoveries |
| `Health.RuntimeClosedForm` | crates/proxy/src/lib.rs:238-259 | the listener error is that of the latest listener event, if that was a failure |

## Left out

- The request handler, sockets and pipes, the CLI, the user interface, SQLite, TLS certificates, LAN sharing and the forwarding of requests: plumbing or unseen libraries.
- Field-by-field catalog validation and catalog generation: long lists of independent checks. What a catalog document says is the parameter `parse`.
- SHA-256, archive unpacking, JSON, URI and address parsing: parameters, so that the results hold of any such function. The limit of 4096 bytes on a receipt is not modelled, since names that short of a file system's limit cannot reach it.
- Time: delays, timeouts, intervals and log summaries are nondeterministic steps or absent; the retries of the range probe before a segmented download are not modelled.
- Texts of errors: the reason is modelled, the message is not. `failed` of the proxy manager is the set of ids.
- Operation ids: a fresh UUID is an id that is not in use.
- White space and lower case are those of ASCII.
- A version named like the file of the active selection (`current`, `current.version`): paths of different purpose are different here. Plain files in place of a staging or backup directory are treated as directories.
- UpdateManager.RuntimeUpdateManager.TryStart: one pass of the admission loop without interference; the waiting and the interference are those of `Coordinator`.
- PackageClaims.OneClaimPerPackage: a package counts as there from the end of its download to its deletion; the removal of a finished file that fails verification before a download, and the digest check before an install, are those of `ResumableDownload.Download` and not of this module.
- SegmentedRuns.RunSafe: the parallel tasks are a step machine, not methods; the methods for a single segment are in `SegmentFiles`, and `SegmentedRuns.ServedSlice` ties them to the machine.
- ResumableDownload.Download: for Windows x64 the program goes on to the segmented download instead of an attempt, which is that of `SegmentedRuns`.
- ResumableDownload.Attempt: the progress callback is not modelled; a cancellation is looked for wherever the program looks for one and may come at any of these points.
- PathIntegration.OthersAfter: the registry calls and the shim scripts are not part of this model.
- `append_macos_shell_block` and `remove_shell_block`: undone only up to line ends, easy otherwise.

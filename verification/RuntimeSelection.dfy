/** What a transaction leaves when it is rolled back or committed, the operations that change the
    selection of a runtime, and the selection over whole runs. */
module RuntimeSelection {
  import opened Wrappers
  import opened Text
  import opened RuntimeFiles
  import opened RuntimeInstall

  // ---- one transaction ----

  /** Begin, then roll back: every version directory, every selection and every removal marker is
      what it was; no backup, staging directory or other trace is left. */
  lemma BeginThenRollback(m: Nodes, request: Request)
    requires Acceptable(m, request)
    ensures SameVisible(m, RolledBack(Begun(m, request), Opened(m, request)))
    ensures request.Backup() !in RolledBack(Begun(m, request), Opened(m, request))
    ensures request.Staging() !in RolledBack(Begun(m, request), Opened(m, request))
  {
    var n := Begun(m, request);
    assert Look(n, request.Backup()) == Look(m, request.Root());
    assert SameExcept(m, n, Own(request));
    RollbackRestores(m, n, request);
    assert Look(RolledBack(n, Opened(m, request)), request.Backup()) == Look(m, request.Backup());
  }

  /** Begin, then commit: the receipt tells the requested package, the selection is the requested
      version or what it was, the removal is forgotten, no backup stays, everything else is as it was,
      and the same request is now turned down as installed. */
  lemma BeginThenCommit(m: Nodes, request: Request)
    requires Acceptable(m, request)
    ensures var after := Committed(Begun(m, request), Opened(m, request));
            && Look(after, request.Root()) == Some(Tree(Packaged(request)))
            && InstalledSha(after, request.name, request.version) == Ok(Some(request.sha256))
            && ActiveVersion(after, request.name) ==
               (if request.activate then Ok(Some(request.version)) else ActiveVersion(m, request.name))
            && request.Marker() !in after && request.Backup() !in after && request.Staging() !in after
            && SameExcept(m, after, Own(request))
            && BeginResult(after, request) == Err(AlreadyInstalled)
  {
    var n := Begun(m, request);
    var after := Committed(n, Opened(m, request));
    assert Look(after, request.Root()) == Some(Tree(Packaged(request)));
    assert SameExcept(m, after, Own(request));
    if !request.activate {
      assert Look(after, request.Active()) == Look(m, request.Active());
      if u :| Look(m, request.Active()) == Some(Choice(u)) && u != request.version {
        assert Look(after, Root(request.name, u)) == Look(m, Root(request.name, u));
      }
    }
  }

  // ---- fresh installation ----

  predicate EqualsIgnoringCase(a: string, b: string) {
    |a| == |b| && forall i :: 0 <= i < |a| ==> LowerChar(a[i]) == LowerChar(b[i])
  }

  lemma SameUpToCase(a: string, b: string)
    ensures EqualsIgnoringCase(a, b) <==> Upper(a) == Upper(b)
  {
    assert |Upper(a)| == |a| && |Upper(b)| == |b|;
    if Upper(a) == Upper(b) {
      forall i | 0 <= i < |a|
        ensures LowerChar(a[i]) == LowerChar(b[i])
      {
        assert Upper(a)[i] == Upper(b)[i];
      }
    } else if |a| == |b| {
      var i :| 0 <= i < |a| && Upper(a)[i] != Upper(b)[i];
      assert LowerChar(a[i]) != LowerChar(b[i]);
    }
  }

  function InstallRefusal(m: Nodes, request: Request): Option<Error> {
    if !IsIdentifier(request.name) || !IsIdentifier(request.version) then
      Some(InvalidIdentifier)
    else if !EqualsIgnoringCase(request.digest, request.sha256) then
      Some(ChecksumMismatch)
    else if request.Root() in m then
      Some(AlreadyInstalled)
    else
      None
  }

  function UnpackRefusal(request: Request): Option<Error> {
    if request.archive.None? then
      Some(Io)
    else if request.version !in request.archive.value then
      Some(InvalidArchive)
    else if !request.healthy(request.archive.value[request.version]) then
      Some(Unhealthy)
    else
      None
  }

  function InstallResult(m: Nodes, request: Request): Result<(), Error> {
    match InstallRefusal(m, request)
    case Some(e) => Err(e)
    case None =>
      match UnpackRefusal(request)
      case Some(e) => Err(e)
      case None => Ok(())
  }

  function InstalledNodes(m: Nodes, request: Request): Nodes {
    if InstallRefusal(m, request).Some? then
      m
    else if UnpackRefusal(request).Some? then
      m - {request.Staging()}
    else
      var placed :=
        (m - {request.Staging()})[request.Root() := Tree(request.archive.value[request.version])];
      (if request.activate then Switched(placed, request.name, request.version) else placed)
      - {request.Marker()}
  }

  /** The checks of a fresh installation in their order. */
  function InstallGuards(m: Nodes, request: Request): seq<Guard<Error>> {
    [Guard(IsIdentifier(request.name), InvalidIdentifier),
     Guard(IsIdentifier(request.version), InvalidIdentifier),
     Guard(Upper(request.digest) == Upper(request.sha256), ChecksumMismatch),
     Guard(Root(request.name, request.version) !in m, AlreadyInstalled),
     Guard(request.archive.Some?, Io),
     Guard(request.archive.Some? ==> request.version in request.archive.value, InvalidArchive),
     Guard(request.archive.Some? && request.version in request.archive.value ==>
             request.healthy(request.archive.value[request.version]), Unhealthy)]
  }

  lemma InstallAnswers(m: Nodes, request: Request)
    ensures Answers(InstallGuards(m, request), InstallResult(m, request))
  {
    var guards := InstallGuards(m, request);
    SameUpToCase(request.digest, request.sha256);
    assert guards[0].error == guards[1].error == InvalidIdentifier && guards[2].error == ChecksumMismatch;
    assert guards[3].error == AlreadyInstalled && guards[4].error == Io;
    assert guards[5].error == InvalidArchive && guards[6].error == Unhealthy;
  }

  /** What is turned down leaves the tree alone; if that is for its package, without a staging directory. */
  lemma InstallLeavesAlone(m: Nodes, request: Request)
    requires InstallResult(m, request).Err?
    ensures InstalledNodes(m, request) ==
            if forall k :: 0 <= k < 4 ==> InstallGuards(m, request)[k].holds then
              m - {Staging(request.name + "-" + request.version)}
            else m
  {
    var guards := InstallGuards(m, request);
    InstallAnswers(m, request);
    SameUpToCase(request.digest, request.sha256);
    assert (forall k :: 0 <= k < 4 ==> guards[k].holds) <==>
           guards[0].holds && guards[1].holds && guards[2].holds && guards[3].holds;
  }

  /** The tree after an installation, path by path. */
  lemma InstallLeaves(m: Nodes, request: Request)
    requires InstallResult(m, request).Ok?
    ensures var after := InstalledNodes(m, request);
      && Look(after, Root(request.name, request.version)) ==
         Some(Tree(request.archive.value[request.version]))
      && Staging(request.name + "-" + request.version) !in after
      && Marker(request.name, request.version) !in after
      && Look(after, Active(request.name)) ==
         (if request.activate then Some(Choice(request.version)) else Look(m, Active(request.name)))
      && (request.activate ==> Pending(request.name) !in after)
      && SameExcept(m, after,
           {Root(request.name, request.version), Active(request.name),
            Staging(request.name + "-" + request.version), Marker(request.name, request.version)}
           + if request.activate then {Pending(request.name)} else {})
  {
  }

  /** Only a name that has no such version gets one; unlike a replacement, a failed selection leaves
      the new version in place. */
  method Install(fs: FileSystem, request: Request) returns (r: Result<(), Error>)
    modifies fs
    ensures old(fs.faults) <= fs.faults
    ensures fs.faults == old(fs.faults) ==>
              fs.nodes == InstalledNodes(old(fs.nodes), request) && r == InstallResult(old(fs.nodes), request)
    ensures r.Ok? ==> fs.faults == old(fs.faults)
    ensures SameExcept(old(fs.nodes), fs.nodes, Own(request) - {request.Backup()})
    ensures request.Root() in old(fs.nodes) ==> fs.nodes == old(fs.nodes)
    ensures ValidSelection(old(fs.nodes), request.name) ==> ValidSelection(fs.nodes, request.name)
  {
    if !IsIdentifier(request.name) || !IsIdentifier(request.version) {
      return Err(InvalidIdentifier);
    }
    var ok := fs.Visit();
    if !ok {
      return Err(Io);
    }
    if !EqualsIgnoringCase(request.digest, request.sha256) {
      return Err(ChecksumMismatch);
    }
    if request.Root() in fs.nodes {
      return Err(AlreadyInstalled);
    }
    assert Look(fs.nodes, request.Root()) == None;
    var staged := StageArchive(fs, request);
    if staged.Err? {
      assert Look(fs.nodes, request.Active()) == Look(old(fs.nodes), request.Active());
      StillValid(old(fs.nodes), fs.nodes, request.name, {request.Staging()});
      return Err(staged.error);
    }
    assert Look(fs.nodes, request.Root()) == None;
    r := Activate(fs, request, old(fs.nodes));
  }

  lemma StillValid(m: Nodes, n: Nodes, name: string, changed: set<Path>)
    requires SameExcept(m, n, changed)
    requires || Look(n, Active(name)) == Look(m, Active(name))
             || Look(n, Active(name)) == None
             || ValidSelection(n, name)
    requires forall v :: Root(name, v) in changed ==> IsDirectory(n, Root(name, v))
    ensures ValidSelection(m, name) ==> ValidSelection(n, name)
  {
    if v :| Look(m, Active(name)) == Some(Choice(v)) && Root(name, v) !in changed {
      assert Look(n, Root(name, v)) == Look(m, Root(name, v));
    }
  }

  /** A directory under construction in the staging area, or none. */
  method StageArchive(fs: FileSystem, request: Request) returns (r: Result<(), Error>)
    modifies fs
    ensures old(fs.faults) <= fs.faults
    ensures SameExcept(old(fs.nodes), fs.nodes, {request.Staging()})
    ensures fs.faults == old(fs.faults) ==>
              match UnpackRefusal(request)
              case Some(e) => r == Err(e) && fs.nodes == old(fs.nodes) - {request.Staging()}
              case None => r == Ok(())
    ensures r.Ok? ==>
              fs.faults == old(fs.faults) && UnpackRefusal(request).None? &&
              Look(fs.nodes, request.Staging()) == Some(Stage(request.archive.value))
  {
    var p := request.Staging();
    var ok := fs.RemoveDirectory(p);
    if !ok {
      return Err(Io);
    }
    ok := fs.Write(p, Stage(map[]));
    if !ok {
      return Err(Io);
    }
    if request.archive.None? {
      var rest: map<string, Files> := *;
      var written := fs.Write(p, Stage(rest));
      r := Err(Io);
    } else {
      ok := fs.Write(p, Stage(request.archive.value));
      if !ok {
        r := Err(Io);
      } else if request.version !in request.archive.value {
        r := Err(InvalidArchive);
      } else if !request.healthy(request.archive.value[request.version]) {
        r := Err(Unhealthy);
      } else {
        r := Ok(());
      }
    }
    if r.Err? {
      ok := fs.RemoveDirectory(p);
      if !ok {
        return Err(Io);
      }
    }
  }

  /** From the staging area into place. */
  method Activate(fs: FileSystem, request: Request, ghost before: Nodes) returns (r: Result<(), Error>)
    requires UnpackRefusal(request).None? && InstallRefusal(before, request).None?
    requires request.Root() !in fs.nodes && SameExcept(before, fs.nodes, {request.Staging()})
    requires Look(fs.nodes, request.Staging()) == Some(Stage(request.archive.value))
    modifies fs
    ensures old(fs.faults) <= fs.faults
    ensures r.Ok? <==> fs.faults == old(fs.faults)
    ensures r.Ok? ==> r == Ok(()) && fs.nodes == InstalledNodes(before, request)
    ensures SameExcept(before, fs.nodes, Own(request) - {request.Backup()})
    ensures ValidSelection(before, request.name) ==> ValidSelection(fs.nodes, request.name)
  {
    var ok := fs.Visit();
    if ok {
      ok := fs.PublishStaged(request.Staging(), request.version, request.Root());
    }
    if !ok {
      StillValid(before, fs.nodes, request.name, {request.Staging()});
      return Err(Io);
    }
    ghost var published := fs.nodes;
    ok := Finish(fs, request);
    assert Look(fs.nodes, request.Root()) == Look(published, request.Root());
    if !ok {
      StillValid(
        before, fs.nodes, request.name,
        Own(request) - {request.Backup()});
      return Err(Io);
    }
    r := Ok(());
    PublishedPlaced(before, old(fs.nodes), request);
  }

  lemma PublishedPlaced(m: Nodes, staged: Nodes, request: Request)
    requires UnpackRefusal(request).None?
    requires SameExcept(m, staged, {request.Staging()})
    requires Look(staged, request.Staging()) == Some(Stage(request.archive.value))
    ensures Published(staged, request.Staging(), request.version, request.Root()) - {request.Staging()}
            == (m - {request.Staging()})[request.Root() := Tree(request.archive.value[request.version])]
  {
    var a := Published(staged, request.Staging(), request.version, request.Root()) - {request.Staging()};
    var b := (m - {request.Staging()})[request.Root() := Tree(request.archive.value[request.version])];
    forall p
      ensures Look(a, p) == Look(b, p)
    {
      assert p == request.Staging() || Look(m, p) == Look(staged, p);
    }
    SameEverywhere(a, b);
  }

  // ---- selecting, deselecting, removing ----

  predicate ValidSelection(m: Nodes, name: string) {
    match Look(m, Active(name))
    case None => true
    case Some(Choice(version)) => IsIdentifier(version) && IsDirectory(m, Root(name, version))
    case _ => false
  }

  function SelectedNodes(m: Nodes, name: string, version: string): Nodes {
    if IsIdentifier(name) && IsIdentifier(version) && Look(m, Root(name, version)).Some? &&
       m[Root(name, version)].Tree? then
      Switched(m, name, version)
    else
      m
  }

  function SelectGuards(m: Nodes, name: string, version: string): seq<Guard<Error>> {
    [Guard(IsIdentifier(name), InvalidIdentifier),
     Guard(IsIdentifier(version), InvalidIdentifier),
     Guard(Root(name, version) in m && m[Root(name, version)].Tree?, NotInstalled)]
  }

  function SelectResult(m: Nodes, name: string, version: string): Result<(), Error> {
    if !IsIdentifier(name) || !IsIdentifier(version) then
      Err(InvalidIdentifier)
    else if Root(name, version) !in m || !m[Root(name, version)].Tree? then
      Err(NotInstalled)
    else
      Ok(())
  }

  lemma SelectAnswers(m: Nodes, name: string, version: string)
    ensures Answers(SelectGuards(m, name, version), SelectResult(m, name, version))
  {
    var guards := SelectGuards(m, name, version);
    assert guards[0].error == guards[1].error == InvalidIdentifier && guards[2].error == NotInstalled;
  }

  /** On Unix a failure leaves the selection alone; on Windows it can lose it, never spoil it. */
  method SetActiveVersion(fs: FileSystem, name: string, version: string) returns (r: Result<(), Error>)
    modifies fs
    ensures fs.faults == old(fs.faults) ==>
              fs.nodes == SelectedNodes(old(fs.nodes), name, version) &&
              r == SelectResult(old(fs.nodes), name, version)
    ensures r.Ok? ==>
              fs.faults == old(fs.faults) &&
              ActiveVersion(fs.nodes, name) == Ok(Some(version)) && Pending(name) !in fs.nodes
    ensures r.Err? && fs.faults == old(fs.faults) ==> fs.nodes == old(fs.nodes)
    ensures r.Err? && !fs.windows ==> Look(fs.nodes, Active(name)) == Look(old(fs.nodes), Active(name))
    ensures SameExcept(old(fs.nodes), fs.nodes, {Active(name), Pending(name)})
    ensures ValidSelection(old(fs.nodes), name) ==> ValidSelection(fs.nodes, name)
  {
    if !IsIdentifier(name) || !IsIdentifier(version) {
      return Err(InvalidIdentifier);
    }
    var ok := fs.Visit();
    if !ok {
      return Err(Io);
    }
    var root := Root(name, version);
    if root !in fs.nodes || !fs.nodes[root].Tree? {
      return Err(NotInstalled);
    }
    ok := SwitchCurrent(fs, name, version);
    assert Look(fs.nodes, root) == Look(old(fs.nodes), root);
    if !ok {
      StillValid(old(fs.nodes), fs.nodes, name, {Active(name), Pending(name)});
      return Err(Io);
    }
    r := Ok(());
  }

  function DeselectGuards(m: Nodes, name: string): seq<Guard<Error>> {
    [Guard(IsIdentifier(name), InvalidIdentifier), Guard(ValidSelection(m, name), InvalidActiveLink)]
  }

  function DeselectResult(m: Nodes, name: string): Result<Option<string>, Error> {
    if !IsIdentifier(name) then Err(InvalidIdentifier) else ActiveVersion(m, name)
  }

  lemma DeselectAnswers(m: Nodes, name: string)
    ensures Answers(DeselectGuards(m, name), DeselectResult(m, name))
    ensures DeselectResult(m, name).Ok? ==>
      Look(m, Active(name)) ==
      match DeselectResult(m, name).value case Some(version) => Some(Choice(version)) case None => None
  {
    var guards := DeselectGuards(m, name);
    assert guards[0].error == InvalidIdentifier && guards[1].error == InvalidActiveLink;
  }

  function DeactivatedNodes(m: Nodes, name: string): Nodes {
    if IsIdentifier(name) && ActiveVersion(m, name).Ok? then m - {Active(name)} else m
  }

  method Deactivate(fs: FileSystem, name: string) returns (r: Result<Option<string>, Error>)
    modifies fs
    ensures fs.faults == old(fs.faults) ==> fs.nodes == DeactivatedNodes(old(fs.nodes), name)
    ensures r.Ok? ==>
              fs.faults == old(fs.faults) && r == ActiveVersion(old(fs.nodes), name) &&
              ActiveVersion(fs.nodes, name) == Ok(None)
    ensures fs.faults == old(fs.faults) ==> r == DeselectResult(old(fs.nodes), name)
    ensures SameExcept(old(fs.nodes), fs.nodes, {Active(name)})
    ensures r.Err? ==> fs.nodes == old(fs.nodes)
    ensures ValidSelection(old(fs.nodes), name) ==> ValidSelection(fs.nodes, name)
  {
    if !IsIdentifier(name) {
      return Err(InvalidIdentifier);
    }
    var ok := fs.Visit();
    if !ok {
      return Err(Io);
    }
    r := ActiveVersion(fs.nodes, name);
    if r.Err? || r.value.None? {
      return;
    }
    ok := fs.RemoveFile(Active(name));
    if !ok {
      return Err(Io);
    }
  }

  predicate Removable(m: Nodes, name: string, version: string) {
    IsIdentifier(name) && IsIdentifier(version) &&
    ActiveVersion(m, name).Ok? && ActiveVersion(m, name).value != Some(version) &&
    Look(m, Root(name, version)).Some? && m[Root(name, version)].Tree?
  }

  function RemoveGuards(m: Nodes, name: string, version: string): seq<Guard<Error>> {
    [Guard(IsIdentifier(name), InvalidIdentifier),
     Guard(IsIdentifier(version), InvalidIdentifier),
     Guard(ValidSelection(m, name), InvalidActiveLink),
     Guard(Look(m, Active(name)) != Some(Choice(version)), ActiveRuntime),
     Guard(Root(name, version) in m && m[Root(name, version)].Tree?, NotInstalled)]
  }

  function RemoveResult(m: Nodes, name: string, version: string): Result<(), Error> {
    if !IsIdentifier(name) || !IsIdentifier(version) then
      Err(InvalidIdentifier)
    else if ActiveVersion(m, name).Err? then
      Err(ActiveVersion(m, name).error)
    else if ActiveVersion(m, name).value == Some(version) then
      Err(ActiveRuntime)
    else if Root(name, version) !in m || !m[Root(name, version)].Tree? then
      Err(NotInstalled)
    else
      Ok(())
  }

  lemma RemoveAnswers(m: Nodes, name: string, version: string)
    ensures Answers(RemoveGuards(m, name, version), RemoveResult(m, name, version))
    ensures Removable(m, name, version) <==> RemoveResult(m, name, version).Ok?
  {
    var guards := RemoveGuards(m, name, version);
    assert guards[0].error == guards[1].error == InvalidIdentifier && guards[2].error == InvalidActiveLink;
    assert guards[3].error == ActiveRuntime && guards[4].error == NotInstalled;
  }

  function RemovedNodes(m: Nodes, name: string, version: string): Nodes {
    if Removable(m, name, version) then m - {Root(name, version)} else m
  }

  /** Never the selected version. A failure can leave a part of the directory. */
  method RemoveInstalledVersion(fs: FileSystem, name: string, version: string) returns (r: Result<(), Error>)
    modifies fs
    ensures fs.faults == old(fs.faults) ==>
              fs.nodes == RemovedNodes(old(fs.nodes), name, version) &&
              r == RemoveResult(old(fs.nodes), name, version)
    ensures r.Ok? ==> fs.faults == old(fs.faults) && Root(name, version) !in fs.nodes
    ensures r.Err? && fs.faults == old(fs.faults) ==> fs.nodes == old(fs.nodes)
    ensures SameExcept(old(fs.nodes), fs.nodes, {Root(name, version)})
    ensures ValidSelection(old(fs.nodes), name) ==> ValidSelection(fs.nodes, name)
  {
    if !IsIdentifier(name) || !IsIdentifier(version) {
      return Err(InvalidIdentifier);
    }
    var ok := fs.Visit();
    if !ok {
      return Err(Io);
    }
    var active := ActiveVersion(fs.nodes, name);
    if active.Err? {
      return Err(active.error);
    }
    if active.value == Some(version) {
      return Err(ActiveRuntime);
    }
    ok := fs.Visit();
    if !ok {
      return Err(Io);
    }
    var root := Root(name, version);
    if root !in fs.nodes || !fs.nodes[root].Tree? {
      return Err(NotInstalled);
    }
    ok := fs.RemoveDirectory(root);
    if !ok {
      return Err(Io);
    }
    r := Ok(());
  }

  function MarkedNodes(m: Nodes, name: string, version: string): Nodes {
    if IsIdentifier(name) && IsIdentifier(version) then
      m[Marker(name, version) := Data(Bytes("removed\n"))]
    else
      m
  }

  // ---- runs ----

  datatype Event =
    | Begin(request: Request)
    | Commit
    | Rollback
    | Install(request: Request)
    | Select(name: string, version: string)
    | Deselect(name: string)
    | Remove(name: string, version: string)
    | MarkRemoved(name: string, version: string)

  /** The files and the transaction that is open, if any. */
  datatype State = State(nodes: Nodes, open: Option<Transaction>)

  /** One transaction at a time, and nobody removes the version it would go back to: what the agent's
      lifecycle lock guarantees. */
  predicate Allowed(s: State, e: Event) {
    match e
    case Begin(_) => s.open.None?
    case Commit => s.open.Some?
    case Rollback => s.open.Some?
    case Remove(name, version) =>
      s.open.None? || s.open.value.name != name || s.open.value.activeBefore != Some(version)
    case _ => true
  }

  function Step(s: State, e: Event): State
    requires Allowed(s, e)
  {
    match e
    case Begin(request) =>
      State(
        BeginNodes(s.nodes, request),
        match BeginResult(s.nodes, request) case Ok(tx) => Some(tx) case Err(_) => None)
    case Commit => State(Committed(s.nodes, s.open.value), None)
    case Rollback => State(RollbackNodes(s.nodes, s.open.value), None)
    case Install(request) => s.(nodes := InstalledNodes(s.nodes, request))
    case Select(name, version) => s.(nodes := SelectedNodes(s.nodes, name, version))
    case Deselect(name) => s.(nodes := DeactivatedNodes(s.nodes, name))
    case Remove(name, version) => s.(nodes := RemovedNodes(s.nodes, name, version))
    case MarkRemoved(name, version) => s.(nodes := MarkedNodes(s.nodes, name, version))
  }

  ghost predicate IsRun(s: State, events: seq<Event>)
    decreases |events|
  {
    events != [] ==> Allowed(s, events[0]) && IsRun(Step(s, events[0]), events[1..])
  }

  ghost function After(s: State, events: seq<Event>): State
    requires IsRun(s, events)
    decreases |events|
  {
    if events == [] then s else After(Step(s, events[0]), events[1..])
  }

  /** What the open transaction would go back to is there. */
  predicate CanGoBack(s: State) {
    s.open.Some? ==>
      var tx := s.open.value;
      && (tx.replaced ==> Look(s.nodes, tx.Backup()).Some? && s.nodes[tx.Backup()].Tree?)
      && (tx.activeBefore.Some? ==>
            var u := tx.activeBefore.value;
            IsIdentifier(u) &&
            if u == tx.version then tx.replaced else IsDirectory(s.nodes, Root(tx.name, u)))
  }

  ghost predicate Safe(s: State) {
    CanGoBack(s) && forall name :: ValidSelection(s.nodes, name)
  }

  lemma BeginSafe(s: State, request: Request)
    requires Safe(s) && s.open.None?
    ensures Safe(Step(s, Begin(request)))
  {
    hide InstalledSha, Packaged;
    var m, n := s.nodes, BeginNodes(s.nodes, request);
    assert ValidSelection(m, request.name);
    if Acceptable(m, request) {
      forall name
        ensures ValidSelection(n, name)
      {
        assert ValidSelection(m, name);
        BegunSelection(m, request, name);
      }
      BegunCanGoBack(s, request);
    } else {
      forall name
        ensures ValidSelection(n, name)
      {
        assert ValidSelection(m, name);
      }
    }
  }

  lemma BegunSelection(m: Nodes, request: Request, name: string)
    requires Acceptable(m, request) && ValidSelection(m, name)
    ensures ValidSelection(Begun(m, request), name)
  {
    hide InstalledSha, Packaged;
  }

  lemma BegunCanGoBack(s: State, request: Request)
    requires Acceptable(s.nodes, request) && ValidSelection(s.nodes, request.name)
    ensures CanGoBack(State(Begun(s.nodes, request), Some(Opened(s.nodes, request))))
  {
    hide Packaged;
  }

  lemma RollbackSafe(s: State)
    requires Safe(s) && s.open.Some?
    ensures Safe(Step(s, Rollback))
  {
    var m, tx := s.nodes, s.open.value;
    var n := RollbackNodes(m, tx);
    forall name
      ensures ValidSelection(n, name)
    {
      assert ValidSelection(m, name);
      if name == tx.name && tx.activeBefore.Some? {
        assert Look(n, Active(name)) == Some(Choice(tx.activeBefore.value));
      }
    }
  }

  lemma InstallSafe(s: State, request: Request)
    requires Safe(s)
    ensures Safe(Step(s, Event.Install(request)))
  {
    var m, n := s.nodes, InstalledNodes(s.nodes, request);
    forall name
      ensures ValidSelection(n, name)
    {
      assert ValidSelection(m, name);
    }
  }

  lemma OtherSafe(s: State, e: Event)
    requires Safe(s) && Allowed(s, e) && !e.Begin? && !e.Rollback? && !e.Install?
    ensures Safe(Step(s, e))
  {
    var m, n := s.nodes, Step(s, e).nodes;
    forall name
      ensures ValidSelection(n, name)
    {
      assert ValidSelection(m, name);
    }
  }

  /** The selection of every runtime names an installed version at every point of every run. */
  lemma {:induction false} SelectionSafe(s: State, events: seq<Event>)
    requires Safe(s) && IsRun(s, events)
    ensures Safe(After(s, events))
    decreases |events|
  {
    if events != [] {
      var e := events[0];
      if e.Begin? {
        BeginSafe(s, e.request);
      } else if e.Rollback? {
        RollbackSafe(s);
      } else if e.Install? {
        InstallSafe(s, e.request);
      } else {
        OtherSafe(s, e);
      }
      SelectionSafe(Step(s, e), events[1..]);
    }
  }

  // ---- a transaction among other operations ----

  /** Whatever is selected, and anything about other runtimes. */
  predicate Spares(e: Event, name: string) {
    match e
    case Select(_, _) => true
    case Deselect(_) => true
    case Install(request) => request.name != name
    case Remove(other, _) => other != name
    case MarkRemoved(other, _) => other != name
    case _ => false
  }

  predicate Holds(p: Path, name: string) {
    (p.Root? || p.Backup? || p.Marker?) && p.name == name
  }

  lemma SparingStep(s: State, e: Event, name: string)
    requires Allowed(s, e) && Spares(e, name)
    ensures Step(s, e).open == s.open
    ensures forall p :: Holds(p, name) ==> Look(Step(s, e).nodes, p) == Look(s.nodes, p)
  {
  }

  lemma {:induction false} SparingRun(s: State, events: seq<Event>, name: string)
    requires IsRun(s, events) && forall i :: 0 <= i < |events| ==> Spares(events[i], name)
    ensures After(s, events).open == s.open
    ensures forall p :: Holds(p, name) ==> Look(After(s, events).nodes, p) == Look(s.nodes, p)
    decreases |events|
  {
    if events != [] {
      SparingStep(s, events[0], name);
      SparingRun(Step(s, events[0]), events[1..], name);
    }
  }

  lemma BegunHolds(m: Nodes, request: Request)
    requires Acceptable(m, request)
    ensures var begun := Begun(m, request);
      && Look(begun, request.Backup()) == Look(m, request.Root()) && Look(begun, request.Marker()) == None
      && forall p :: Holds(p, request.name) && p !in Own(request) ==> Look(begun, p) == Look(m, p)
  {
    hide Packaged, InstalledSha;
  }

  lemma RolledBackHolds(m: Nodes, n: Nodes, request: Request)
    requires Refusal(m, request).None?
    requires Look(n, request.Backup()) == Look(m, request.Root()) && Look(n, request.Marker()) == None
    requires forall p :: Holds(p, request.name) && p !in Own(request) ==> Look(n, p) == Look(m, p)
    ensures forall p :: Holds(p, request.name) || p == request.Active() ==>
                          Look(RollbackNodes(n, Opened(m, request)), p) == Look(m, p)
  {
    hide InstalledSha;
  }

  /** Between begin and roll back any selecting, and any operation on other runtimes: the runtime's
      directories, backups, markers and selection are then what they were before begin. */
  lemma RollbackAfterOthers(m: Nodes, request: Request, events: seq<Event>)
    requires Acceptable(m, request)
    requires IsRun(State(Begun(m, request), Some(Opened(m, request))), events)
    requires forall i :: 0 <= i < |events| ==> Spares(events[i], request.name)
    ensures var end := After(State(Begun(m, request), Some(Opened(m, request))), events);
            && end.open == Some(Opened(m, request))
            && forall p :: Holds(p, request.name) || p == request.Active() ==>
                             Look(RollbackNodes(end.nodes, end.open.value), p) == Look(m, p)
  {
    var begun, tx := Begun(m, request), Opened(m, request);
    assert Holds(request.Backup(), request.name) && Holds(request.Marker(), request.name);
    hide Holds, After, IsRun, Spares, Begun, Opened, RollbackNodes, Look, Own;
    SparingRun(State(begun, Some(tx)), events, request.name);
    BegunHolds(m, request);
    RolledBackHolds(m, After(State(begun, Some(tx)), events).nodes, request);
  }

  /** Exactly when rolling back leaves a valid selection: the version to go back to is still there, or
      is the one that was set aside. */
  lemma RollbackSelection(m: Nodes, tx: Transaction)
    requires tx.activeBefore.Some? ==> IsIdentifier(tx.activeBefore.value)
    requires tx.replaced ==> IsDirectory(m, tx.Backup())
    ensures ValidSelection(RollbackNodes(m, tx), tx.name) <==>
            match tx.activeBefore
            case None => true
            case Some(u) => if u == tx.version then tx.replaced else IsDirectory(m, Root(tx.name, u))
  {
    var n := RollbackNodes(m, tx);
    if tx.activeBefore.Some? {
      assert Look(n, Active(tx.name)) == Some(Choice(tx.activeBefore.value));
    } else {
      assert Look(n, Active(tx.name)) == None;
    }
  }

  /** Why these functions need a lock around a transaction: the version an open transaction would go back to
      is no longer the selected one, so they let it be removed, and the rollback then selects what is gone.
      The agent holds `lifecycle_operations` from begin to commit or roll back and for every removal
      (crates/agent/src/main.rs, lines 888 to 936), so that its runs are those that `Allowed` describes. */
  lemma RemovingThePriorSelection()
    ensures exists m: Nodes, request: Request ::
              && Acceptable(m, request) && ValidSelection(m, "php") && request.name == "php"
              && Removable(Begun(m, request), "php", "8.3")
              && !ValidSelection(
                    RollbackNodes(RemovedNodes(Begun(m, request), "php", "8.3"), Opened(m, request)), "php")
  {
    var m: Nodes := map[Root("php", "8.3") := Tree(map[]), Active("php") := Choice("8.3")];
    var sha := seq(64, _ => '0');
    var request := Request(Some(map["8.4" := map[]]), sha, sha, 1, "php", "8.4", true, _ => true);
    assert Acceptable(m, request);
    var n := Begun(m, request);
    assert Look(n, Active("php")) == Some(Choice("8.4"));
    assert Look(n, Root("php", "8.3")) == Look(m, Root("php", "8.3"));
    assert Removable(n, "php", "8.3");
    var after := RollbackNodes(RemovedNodes(n, "php", "8.3"), Opened(m, request));
    assert Look(after, Active("php")) == Some(Choice("8.3"));
    assert Look(after, Root("php", "8.3")) == None;
    assert !ValidSelection(after, "php");
  }
}

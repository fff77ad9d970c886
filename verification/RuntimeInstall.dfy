/** Installing a runtime version as a transaction: begin, then commit or roll back. Each operation
    is a method over the file system and, when no step fails, equals a function of the tree. */
module RuntimeInstall {
  import opened Wrappers
  import opened Text
  import opened RuntimeFiles

  const RECEIPT_FILE := ".fabdev-package.json"
  const RECEIPT_PENDING := RECEIPT_FILE + ".pending"
  const MAX_SAFE_INTEGER: nat := 9_007_199_254_740_991

  datatype Error =
    | Io
    | InvalidIdentifier
    | InvalidReceipt
    | ChecksumMismatch
    | InvalidArchive
    | InvalidActiveLink
    | AlreadyInstalled
    | BackupExists
    | ActiveRuntime
    | NotInstalled
    | Unhealthy

  /** `archive` is what the package unpacks to (`None`: it is not a readable archive), `digest` its
      real SHA-256, `healthy` the caller's check of the unpacked directory. */
  datatype Request = Request(
    archive: Option<map<string, Files>>,
    digest: string,
    sha256: string,
    catalogSequence: nat,
    name: string,
    version: string,
    activate: bool,
    healthy: Files -> bool)
  {
    function Root(): Path { Path.Root(name, version) }
    function Backup(): Path { Path.Backup(name, version) }
    function Staging(): Path { Path.Staging(name + "-" + version) }
    function Active(): Path { Path.Active(name) }
    function Marker(): Path { Path.Marker(name, version) }
    function Receipt(): RuntimeFiles.Receipt {
      RuntimeFiles.Receipt(1, name, version, sha256, catalogSequence)
    }
  }

  datatype Transaction = Transaction(
    name: string,
    version: string,
    replaced: bool,
    activeBefore: Option<string>,
    marker: Option<Node>)
  {
    function Root(): Path { Path.Root(name, version) }
    function Backup(): Path { Path.Backup(name, version) }
    function Staging(): Path { Path.Staging(name + "-" + version) }
    function Active(): Path { Path.Active(name) }
    function Pending(): Path { Path.Pending(name) }
    function Marker(): Path { Path.Marker(name, version) }
  }

  // ---- checks ----

  predicate IsIdentifier(s: string) {
    s != "" && s[0] != '.' &&
    forall i :: 0 <= i < |s| ==>
                  'a' <= s[i] <= 'z' || 'A' <= s[i] <= 'Z' || '0' <= s[i] <= '9' || s[i] in ".-_"
  }

  predicate IsDigest(s: string) {
    |s| == 64 && forall i :: 0 <= i < |s| ==> '0' <= s[i] <= '9' || 'a' <= s[i] <= 'f'
  }

  predicate IsSequence(n: nat) {
    0 < n <= MAX_SAFE_INTEGER
  }

  predicate IsDirectory(m: Nodes, p: Path) {
    p in m && (m[p].Tree? || m[p].Linked?)
  }

  function ActiveVersion(m: Nodes, name: string): Result<Option<string>, Error> {
    match Look(m, Active(name))
    case None => Ok(None)
    case Some(Choice(version)) =>
      if IsIdentifier(version) && IsDirectory(m, Root(name, version)) then
        Ok(Some(version))
      else
        Err(InvalidActiveLink)
    case _ => Err(InvalidActiveLink)
  }

  /** The SHA-256 noted in the installed version's receipt, if it has one. */
  function InstalledSha(m: Nodes, name: string, version: string): Result<Option<string>, Error> {
    match Look(m, Root(name, version))
    case None => Ok(None)
    case Some(node) =>
      if !node.Tree? && !node.Linked? then
        Err(Io)
      else if RECEIPT_FILE !in node.files then
        Ok(None)
      else
        match node.files[RECEIPT_FILE]
        case Bytes(_) => Err(InvalidReceipt)
        case Record(r) =>
          if r.schemaVersion != 1 || r.name != name || r.version != version ||
             !IsDigest(r.packageSha256) || !IsSequence(r.catalogSequence) then
            Err(InvalidReceipt)
          else
            Ok(Some(r.packageSha256))
  }

  /** Why a request is turned down before anything is written. */
  function Refusal(m: Nodes, request: Request): Option<Error> {
    if !IsIdentifier(request.name) || !IsIdentifier(request.version) then
      Some(InvalidIdentifier)
    else if !IsDigest(request.sha256) || !IsSequence(request.catalogSequence) then
      Some(InvalidReceipt)
    else if request.digest != request.sha256 then
      Some(ChecksumMismatch)
    else if ActiveVersion(m, request.name).Err? then
      Some(ActiveVersion(m, request.name).error)
    else if request.Backup() in m then
      Some(BackupExists)
    else if request.Root() !in m then
      None
    else
      match InstalledSha(m, request.name, request.version)
      case Err(e) => Some(e)
      case Ok(sha) =>
        if sha == Some(request.sha256) || !m[request.Root()].Tree? then
          Some(AlreadyInstalled)
        else
          None
  }

  /** The unpacked directory with its receipt in place of whatever receipt it came with. */
  function Packaged(request: Request): Files
    requires request.archive.Some? && request.version in request.archive.value
  {
    (request.archive.value[request.version] - {RECEIPT_PENDING})
    [RECEIPT_FILE := Record(request.Receipt())]
  }

  /** Why the unpacked package is turned down. */
  function StageRefusal(request: Request): Option<Error> {
    if request.archive.None? then
      Some(Io)
    else if request.version !in request.archive.value then
      Some(InvalidArchive)
    else if !request.healthy(Packaged(request)) then
      Some(Unhealthy)
    else
      None
  }

  // ---- what the operations do when no step fails ----

  function Switched(m: Nodes, name: string, version: string): Nodes {
    (m - {Pending(name)})[Active(name) := Choice(version)]
  }

  predicate Acceptable(m: Nodes, request: Request) {
    Refusal(m, request).None? && StageRefusal(request).None?
  }

  function Opened(m: Nodes, request: Request): Transaction
    requires Refusal(m, request).None?
  {
    Transaction(
      request.name, request.version, request.Root() in m,
      ActiveVersion(m, request.name).value, Look(m, request.Marker()))
  }

  function SetAside(m: Nodes, request: Request): Nodes {
    if request.Root() in m then Moved(m, request.Root(), request.Backup()) else m
  }

  function Placed(m: Nodes, request: Request): Nodes
    requires Acceptable(m, request)
  {
    (SetAside(m, request) - {request.Staging()})[request.Root() := Tree(Packaged(request))]
  }

  function Begun(m: Nodes, request: Request): Nodes
    requires Acceptable(m, request)
  {
    var placed := Placed(m, request);
    (if request.activate then Switched(placed, request.name, request.version) else placed)
    - {request.Marker()}
  }

  function BeginResult(m: Nodes, request: Request): Result<Transaction, Error> {
    match Refusal(m, request)
    case Some(e) => Err(e)
    case None =>
      match StageRefusal(request)
      case Some(e) => Err(e)
      case None => Ok(Opened(m, request))
  }

  function BeginNodes(m: Nodes, request: Request): Nodes {
    if Refusal(m, request).Some? then m
    else if StageRefusal(request).Some? then m - {request.Staging()}
    else Begun(m, request)
  }

  function Committed(m: Nodes, tx: Transaction): Nodes {
    if tx.replaced then m - {tx.Backup()} else m
  }

  function Restored(m: Nodes, tx: Transaction): Nodes
    requires tx.replaced ==> tx.Backup() in m
  {
    (if tx.replaced then Moved(m - {tx.Root()}, tx.Backup(), tx.Root()) else m - {tx.Root()})
    - {tx.Staging()}
  }

  function Reselected(m: Nodes, tx: Transaction): Nodes {
    match tx.activeBefore
    case Some(version) => Switched(m, tx.name, version)
    case None => m - {tx.Active()}
  }

  function Remarked(m: Nodes, tx: Transaction): Nodes {
    match tx.marker
    case Some(node) => m[tx.Marker() := node]
    case None => m
  }

  function RolledBack(m: Nodes, tx: Transaction): Nodes
    requires tx.replaced ==> tx.Backup() in m
  {
    Remarked(Reselected(Restored(m, tx), tx), tx)
  }

  /** Without the directory that was set aside, rolling back stops after the removal. */
  function RollbackNodes(m: Nodes, tx: Transaction): Nodes {
    if tx.replaced && tx.Backup() !in m then m - {tx.Root()} else RolledBack(m, tx)
  }

  // ---- the selection ----

  /** Every step of the switch works on the pending file or the selection; on Unix the rename
      replaces the selection at once, on Windows it is removed first. */
  method SwitchCurrent(fs: FileSystem, name: string, version: string) returns (ok: bool)
    modifies fs
    ensures fs.faults == old(fs.faults) + if ok then 0 else 1
    ensures ok ==> fs.nodes == Switched(old(fs.nodes), name, version)
    ensures !ok ==> SameExcept(old(fs.nodes), fs.nodes, {Pending(name), Active(name)})
    ensures !ok ==>
              Look(fs.nodes, Active(name)) == Look(old(fs.nodes), Active(name)) ||
              (fs.windows && Active(name) !in fs.nodes)
  {
    ok := fs.RemoveFile(Pending(name));
    if !ok {
      return;
    }
    ok := fs.Write(Pending(name), Choice(version));
    if !ok {
      return;
    }
    if fs.windows {
      ok := fs.RemoveFile(Active(name));
      if !ok {
        return;
      }
    }
    ok := fs.RenameFile(Pending(name), Active(name));
  }

  // ---- begin ----

  /** Writes the receipt beside the unpacked files: pending file, removal of an old receipt,
      rename. Only the staging directory changes. */
  method WriteReceipt(fs: FileSystem, request: Request) returns (ok: bool)
    requires request.Staging() in fs.nodes && fs.nodes[request.Staging()].Stage?
    requires request.archive.Some? && fs.nodes[request.Staging()].trees == request.archive.value
    requires request.version in request.archive.value
    modifies fs
    ensures fs.faults == old(fs.faults) + if ok then 0 else 1
    ensures SameExcept(old(fs.nodes), fs.nodes, {request.Staging()})
    ensures ok ==>
              request.Staging() in fs.nodes && fs.nodes[request.Staging()].Stage? &&
              request.version in fs.nodes[request.Staging()].trees &&
              fs.nodes[request.Staging()].trees[request.version] == Packaged(request)
  {
    var p, v := request.Staging(), request.version;
    var trees := fs.nodes[p].trees;
    var pending := trees[v][RECEIPT_PENDING := Record(request.Receipt())];
    ok := fs.Write(p, Stage(trees[v := pending]));
    if !ok {
      return;
    }
    ok := fs.Write(p, Stage(trees[v := pending - {RECEIPT_FILE}]));
    if !ok {
      return;
    }
    var named := (pending - {RECEIPT_FILE} - {RECEIPT_PENDING})[RECEIPT_FILE := pending[RECEIPT_PENDING]];
    ok := fs.Write(p, Stage(trees[v := named]));
    assert named == Packaged(request);
  }

  /** Unpacks, notes the receipt and runs the check. */
  method Unpack(fs: FileSystem, request: Request) returns (r: Result<(), Error>)
    modifies fs
    ensures SameExcept(old(fs.nodes), fs.nodes, {request.Staging()})
    ensures fs.faults == old(fs.faults) ==>
              r == (match StageRefusal(request) case Some(e) => Err(e) case None => Ok(()))
    ensures r.Ok? ==>
              fs.faults == old(fs.faults) &&
              request.Staging() in fs.nodes && fs.nodes[request.Staging()].Stage? &&
              request.version in fs.nodes[request.Staging()].trees &&
              fs.nodes[request.Staging()].trees[request.version] == Packaged(request)
    ensures old(fs.faults) <= fs.faults <= old(fs.faults) + 1
  {
    var p := request.Staging();
    if request.archive.None? {
      var rest: map<string, Files> := *;
      var written := fs.Write(p, Stage(rest));
      return Err(Io);
    }
    var ok := fs.Write(p, Stage(request.archive.value));
    if !ok {
      return Err(Io);
    }
    if request.version !in request.archive.value {
      return Err(InvalidArchive);
    }
    ok := WriteReceipt(fs, request);
    if !ok {
      return Err(Io);
    }
    if !request.healthy(fs.nodes[p].trees[request.version]) {
      return Err(Unhealthy);
    }
    r := Ok(());
  }

  /** A staging directory with the package and its receipt, or none. */
  method StagePackage(fs: FileSystem, request: Request) returns (r: Result<(), Error>)
    modifies fs
    ensures SameExcept(old(fs.nodes), fs.nodes, {request.Staging()})
    ensures fs.faults == old(fs.faults) ==>
              match StageRefusal(request)
              case Some(e) => r == Err(e) && fs.nodes == old(fs.nodes) - {request.Staging()}
              case None => r == Ok(())
    ensures r.Ok? ==>
              fs.faults == old(fs.faults) &&
              request.Staging() in fs.nodes && fs.nodes[request.Staging()].Stage? &&
              request.version in fs.nodes[request.Staging()].trees &&
              fs.nodes[request.Staging()].trees[request.version] == Packaged(request)
    ensures old(fs.faults) <= fs.faults
  {
    var p := request.Staging();
    var ok := fs.RemoveDirectory(p);
    if !ok {
      return Err(Io);
    }
    ok := fs.Write(p, Stage(map[]));
    if !ok {
      return Err(Io);
    }
    r := Unpack(fs, request);
    if r.Err? {
      ok := fs.RemoveDirectory(p);
      if !ok {
        return Err(Io);
      }
    }
  }

  /** Everything that is looked at before the first write. */
  method Inspect(fs: FileSystem, request: Request) returns (r: Result<Transaction, Error>)
    modifies fs`faults
    ensures old(fs.faults) <= fs.faults
    ensures r.Ok? ==>
              fs.faults == old(fs.faults) &&
              Refusal(fs.nodes, request).None? && r.value == Opened(fs.nodes, request)
    ensures fs.faults == old(fs.faults) ==>
              match Refusal(fs.nodes, request)
              case Some(e) => r == Err(e)
              case None => r.Ok?
  {
    if !IsIdentifier(request.name) || !IsIdentifier(request.version) {
      return Err(InvalidIdentifier);
    }
    if !IsDigest(request.sha256) || !IsSequence(request.catalogSequence) {
      return Err(InvalidReceipt);
    }
    var ok := fs.Visit();
    if !ok {
      return Err(Io);
    }
    if request.digest != request.sha256 {
      return Err(ChecksumMismatch);
    }
    ok := fs.Visit();
    if !ok {
      return Err(Io);
    }
    var active := ActiveVersion(fs.nodes, request.name);
    if active.Err? {
      return Err(active.error);
    }
    ok := fs.Visit();
    if !ok {
      return Err(Io);
    }
    var marker := Look(fs.nodes, request.Marker());
    if request.Backup() in fs.nodes {
      return Err(BackupExists);
    }
    var replacing := request.Root() in fs.nodes;
    if replacing {
      ok := fs.Visit();
      if !ok {
        return Err(Io);
      }
      var sha := InstalledSha(fs.nodes, request.name, request.version);
      if sha.Err? {
        return Err(sha.error);
      }
      if sha.value == Some(request.sha256) || !fs.nodes[request.Root()].Tree? {
        return Err(AlreadyInstalled);
      }
    }
    r := Ok(Transaction(request.name, request.version, replacing, active.value, marker));
  }

  /** The old directory is still where it was, or set aside. */
  predicate Kept(before: Nodes, after: Nodes, root: Path, backup: Path) {
    root in before ==>
      Look(after, root) == Look(before, root) || Look(after, backup) == Look(before, root)
  }

  /** The unpacked directory in place, the old one set aside. */
  function Swapped(m: Nodes, request: Request): Nodes
    requires request.Staging() in m && m[request.Staging()].Stage?
    requires request.version in m[request.Staging()].trees
  {
    Published(SetAside(m, request), request.Staging(), request.version, request.Root())
  }

  /** The two renames. If the second fails the first is undone. */
  method Swap(fs: FileSystem, request: Request) returns (ok: bool)
    requires request.Staging() in fs.nodes && fs.nodes[request.Staging()].Stage?
    requires request.version in fs.nodes[request.Staging()].trees
    requires request.Backup() !in fs.nodes
    modifies fs
    ensures old(fs.faults) <= fs.faults
    ensures ok ==> fs.faults == old(fs.faults) && fs.nodes == Swapped(old(fs.nodes), request)
    ensures !ok ==> fs.faults > old(fs.faults)
    ensures !ok && fs.faults <= old(fs.faults) + 1 ==> SameVisible(old(fs.nodes), fs.nodes)
    ensures Kept(old(fs.nodes), fs.nodes, request.Root(), request.Backup())
    ensures SameExcept(old(fs.nodes), fs.nodes, {request.Root(), request.Backup(), request.Staging()})
  {
    ok := fs.Visit();
    if !ok {
      return;
    }
    var replacing := request.Root() in fs.nodes;
    if replacing {
      ok := fs.RenameDirectory(request.Root(), request.Backup());
      if !ok {
        return;
      }
    }
    ok := fs.PublishStaged(request.Staging(), request.version, request.Root());
    if !ok {
      if replacing {
        var restored := fs.RenameDirectory(request.Backup(), request.Root());
      }
      var removed := fs.RemoveDirectory(request.Staging());
    }
  }

  /** Clears the staging directory, selects the version if asked to, forgets that it was removed. */
  method Finish(fs: FileSystem, request: Request) returns (ok: bool)
    modifies fs
    ensures fs.faults == old(fs.faults) + if ok then 0 else 1
    ensures ok ==>
              fs.nodes ==
              (if request.activate then
                 Switched(old(fs.nodes) - {request.Staging()}, request.name, request.version)
               else old(fs.nodes) - {request.Staging()}) - {request.Marker()}
    ensures SameExcept(
              old(fs.nodes), fs.nodes,
              {request.Staging(), Pending(request.name), request.Active(), request.Marker()})
    ensures !ok ==> Look(fs.nodes, request.Marker()) == Look(old(fs.nodes), request.Marker())
    ensures !ok ==>
              || Look(fs.nodes, request.Active()) == Look(old(fs.nodes), request.Active())
              || Look(fs.nodes, request.Active()) in {None, Some(Choice(request.version))}
  {
    ok := fs.RemoveDirectory(request.Staging());
    if !ok {
      return;
    }
    if request.activate {
      ok := SwitchCurrent(fs, request.name, request.version);
      if !ok {
        return;
      }
    }
    ok := fs.RemoveFile(request.Marker());
  }

  function Own(request: Request): set<Path> {
    {request.Root(), request.Backup(), request.Staging(), request.Active(), Pending(request.name),
     request.Marker()}
  }

  /** The staged tree, swapped in and finished, is the tree the operation is specified to leave. */
  lemma SwappedAndFinished(m: Nodes, staged: Nodes, request: Request)
    requires Acceptable(m, request)
    requires SameExcept(m, staged, {request.Staging()})
    requires request.Staging() in staged && staged[request.Staging()].Stage?
    requires request.version in staged[request.Staging()].trees
    requires staged[request.Staging()].trees[request.version] == Packaged(request)
    ensures Swapped(staged, request) - {request.Staging()} == Placed(m, request)
  {
    var a, b := Swapped(staged, request) - {request.Staging()}, Placed(m, request);
    forall p
      ensures Look(a, p) == Look(b, p)
    {
      assert Look(m, request.Root()) == Look(staged, request.Root());
      assert p == request.Staging() || Look(m, p) == Look(staged, p);
    }
    SameEverywhere(a, b);
  }

  lemma SameEverywhere(a: Nodes, b: Nodes)
    requires forall p :: Look(a, p) == Look(b, p)
    ensures a == b
  {
    forall p
      ensures p in a <==> p in b
      ensures p in a ==> a[p] == b[p]
    {
      assert Look(a, p) == Look(b, p);
    }
  }

  /** From a staged package to an open transaction; `before` is the tree the operation began with. */
  method Exchange(fs: FileSystem, request: Request, tx: Transaction, ghost before: Nodes)
    returns (ok: bool)
    requires Acceptable(before, request) && tx == Opened(before, request)
    requires SameExcept(before, fs.nodes, {request.Staging()})
    requires request.Staging() in fs.nodes && fs.nodes[request.Staging()].Stage?
    requires request.version in fs.nodes[request.Staging()].trees
    requires fs.nodes[request.Staging()].trees[request.version] == Packaged(request)
    modifies fs
    ensures old(fs.faults) <= fs.faults
    ensures ok <==> fs.faults == old(fs.faults)
    ensures ok ==> fs.nodes == Begun(before, request)
    ensures !ok && fs.faults <= old(fs.faults) + 1 ==> SameVisible(before, fs.nodes)
    ensures Kept(before, fs.nodes, request.Root(), request.Backup())
    ensures SameExcept(before, fs.nodes, Own(request))
  {
    ghost var staged := fs.nodes;
    assert Look(staged, request.Backup()) == Look(before, request.Backup());
    assert Look(staged, request.Root()) == Look(before, request.Root());
    ok := Swap(fs, request);
    if !ok {
      return;
    }
    ghost var swapped := fs.nodes;
    assert Look(swapped, request.Backup()) == Look(before, request.Root());
    SwappedAndFinished(before, staged, request);
    ok := Finish(fs, request);
    if !ok {
      assert Look(fs.nodes, request.Backup()) == Look(swapped, request.Backup());
      RollbackRestores(before, fs.nodes, request);
      var undone := Rollback(fs, tx);
    }
  }

  method Begin(fs: FileSystem, request: Request) returns (r: Result<Transaction, Error>)
    modifies fs
    ensures fs.faults == old(fs.faults) ==>
              r == BeginResult(old(fs.nodes), request) && fs.nodes == BeginNodes(old(fs.nodes), request)
    ensures r.Ok? ==> fs.faults == old(fs.faults)
    ensures r.Err? && fs.faults <= old(fs.faults) + 1 ==> SameVisible(old(fs.nodes), fs.nodes)
    ensures Kept(old(fs.nodes), fs.nodes, request.Root(), request.Backup())
    ensures SameExcept(old(fs.nodes), fs.nodes, Own(request))
  {
    r := Inspect(fs, request);
    if r.Err? {
      return;
    }
    var staged := StagePackage(fs, request);
    if staged.Err? {
      assert Look(old(fs.nodes), request.Root()) == Look(fs.nodes, request.Root());
      return Err(staged.error);
    }
    var ok := Exchange(fs, request, r.value, old(fs.nodes));
    if !ok {
      return Err(Io);
    }
  }

  // ---- commit and roll back ----

  method Commit(fs: FileSystem, tx: Transaction) returns (r: Result<(), Error>)
    modifies fs
    ensures r.Ok? <==> fs.faults == old(fs.faults)
    ensures r.Ok? ==> fs.nodes == Committed(old(fs.nodes), tx)
    ensures r.Ok? ==> if tx.replaced then tx.Backup() !in fs.nodes else fs.nodes == old(fs.nodes)
    ensures SameExcept(old(fs.nodes), fs.nodes, {tx.Backup()})
  {
    if tx.replaced {
      var ok := fs.RemoveDirectory(tx.Backup());
      if !ok {
        return Err(Io);
      }
    }
    r := Ok(());
  }

  /** Nothing is lost on the way: after any number of failed steps the directory that was set aside is
      still aside or back in place. */
  method Rollback(fs: FileSystem, tx: Transaction) returns (r: Result<(), Error>)
    modifies fs
    ensures r.Ok? <==>
            fs.faults == old(fs.faults) && (tx.replaced ==> tx.Backup() in old(fs.nodes))
    ensures fs.faults == old(fs.faults) ==> fs.nodes == RollbackNodes(old(fs.nodes), tx)
    ensures old(fs.faults) <= fs.faults
    ensures tx.replaced ==>
              Look(fs.nodes, tx.Backup()) == Look(old(fs.nodes), tx.Backup()) ||
              Look(fs.nodes, tx.Root()) == Look(old(fs.nodes), tx.Backup())
    ensures SameExcept(
              old(fs.nodes), fs.nodes,
              {tx.Root(), tx.Backup(), tx.Staging(), tx.Active(), tx.Pending(), tx.Marker()})
  {
    var ok := fs.RemoveDirectory(tx.Root());
    if !ok {
      return Err(Io);
    }
    if tx.replaced {
      ok := fs.RenameDirectory(tx.Backup(), tx.Root());
      if !ok {
        return Err(Io);
      }
    }
    ok := fs.RemoveDirectory(tx.Staging());
    if !ok {
      return Err(Io);
    }
    match tx.activeBefore {
      case Some(version) => ok := SwitchCurrent(fs, tx.name, version);
      case None => ok := fs.RemoveFile(tx.Active());
    }
    if !ok {
      return Err(Io);
    }
    if tx.marker.Some? {
      ok := fs.Visit();
      if !ok {
        return Err(Io);
      }
      ok := fs.Write(tx.Marker(), tx.marker.value);
      if !ok {
        return Err(Io);
      }
    }
    r := Ok(());
  }

  /** Whatever became of the directory, the staging area and the selection since the transaction was
      opened: as long as the old directory is set aside and nobody marked the version as removed,
      rolling back makes every version directory, selection and marker what it was. */
  lemma RollbackRestores(m: Nodes, n: Nodes, request: Request)
    requires Refusal(m, request).None?
    requires SameExcept(m, n, Own(request))
    requires request.Root() in m ==> Look(n, request.Backup()) == Look(m, request.Root())
    requires request.Root() !in m ==> request.Backup() !in n
    requires Look(n, request.Marker()).None? || Look(n, request.Marker()) == Look(m, request.Marker())
    ensures SameVisible(m, RolledBack(n, Opened(m, request)))
  {
  }
}

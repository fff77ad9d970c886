/** The files below the runtime directory, as a map from paths to nodes, and the steps that change
    them. Every step may fail; `faults` counts the steps that failed although nothing in the file
    tree stood in their way. */
module RuntimeFiles {
  import opened Wrappers
  import opened Text

  type Files = map<string, Content>

  datatype Receipt = Receipt(
    schemaVersion: nat, name: string, version: string, packageSha256: string, catalogSequence: nat)

  datatype Content = Bytes(data: string) | Record(receipt: Receipt)

  /** `Root` is the directory of an installed version, `Active` the name's selection
      (`current`, or `current.version` on Windows), `Marker` the note that a version was removed. */
  datatype Path =
    | Root(name: string, version: string)
    | Backup(name: string, version: string)
    | Staging(directory: string)
    | Active(name: string)
    | Pending(name: string)
    | Marker(name: string, version: string)

  /** `Linked` is a symbolic link to a directory elsewhere; `Choice` is a selection, a symbolic link
      on Unix and a text file on Windows. */
  datatype Node =
    | Tree(files: Files)
    | Linked(files: Files)
    | Stage(trees: map<string, Files>)
    | Choice(version: string)
    | Data(content: Content)

  type Nodes = map<Path, Node>

  function Look(m: Nodes, p: Path): Option<Node> {
    if p in m then Some(m[p]) else None
  }

  /** What an interrupted operation may leave behind; the next one clears it away. */
  predicate Residue(p: Path) {
    p.Staging? || p.Pending?
  }

  ghost predicate SameVisible(a: Nodes, b: Nodes) {
    forall p :: !Residue(p) ==> Look(a, p) == Look(b, p)
  }

  ghost predicate SameExcept(a: Nodes, b: Nodes, changed: set<Path>) {
    forall p :: p !in changed ==> Look(a, p) == Look(b, p)
  }

  function Moved(m: Nodes, source: Path, destination: Path): Nodes
    requires source in m
  {
    (m - {source})[destination := m[source]]
  }

  /** What an unsuccessful recursive removal leaves of a node: any part of a directory. */
  predicate Torn(before: Node, after: Node) {
    match before
    case Tree(_) => after.Tree?
    case Stage(_) => after.Stage?
    case _ => after == before
  }

  datatype Outcome = Done | Denied | Failed

  /** The retry loop by itself, over an operation whose `k`th try comes to `script(k)`: it goes on only
      while permission is denied, and gives up on that only after the last try. */
  method RetryPermissionDenied(attempts: nat, script: nat -> Outcome) returns (outcome: Outcome, tries: nat)
    requires attempts > 0
    ensures 0 < tries <= attempts && outcome == script(tries - 1)
    ensures forall k :: 0 <= k < tries - 1 ==> script(k).Denied?
    ensures outcome.Denied? ==> tries == attempts
  {
    tries, outcome := 1, script(0);
    while outcome.Denied? && tries < attempts
      invariant 0 < tries <= attempts && outcome == script(tries - 1)
      invariant forall k :: 0 <= k < tries - 1 ==> script(k).Denied?
    {
      outcome := script(tries);
      tries := tries + 1;
    }
  }

  class FileSystem {
    const windows: bool
    var nodes: Nodes
    ghost var faults: nat

    constructor (windows: bool, nodes: Nodes)
      ensures this.windows == windows && this.nodes == nodes && faults == 0
    {
      this.windows, this.nodes, faults := windows, nodes, 0;
    }

    /** How often a directory step is tried while permission is denied. */
    function Attempts(): nat {
      if windows then 51 else 1
    }

    /** A step that changes no node: reading, or creating a parent directory. */
    method Visit() returns (ok: bool)
      modifies this`faults
      ensures faults == old(faults) + if ok then 0 else 1
    {
      ok := *;
      if !ok {
        faults := faults + 1;
      }
    }

    /** Rename of a directory onto a path that must be free. A try that fails changes nothing. */
    method RenameDirectory(source: Path, destination: Path) returns (ok: bool)
      modifies this
      ensures ok ==> source in old(nodes) && destination !in old(nodes)
      ensures nodes == if ok then Moved(old(nodes), source, destination) else old(nodes)
      ensures faults == old(faults) +
                        if !ok && source in old(nodes) && destination !in old(nodes) then 1 else 0
    {
      var possible := source in nodes && destination !in nodes;
      var outcome := Retry(possible);
      ok := outcome.Done?;
      if ok {
        nodes := Moved(nodes, source, destination);
      } else if possible {
        faults := faults + 1;
      }
    }

    /** The last outcome of the tries of a directory step, which none but a possible step gets done. */
    method Retry(possible: bool) returns (outcome: Outcome)
      ensures outcome.Done? ==> possible
    {
      var tries: nat -> Outcome := *;
      var script := (k: nat) => if tries(k).Done? && !possible then Failed else tries(k);
      var count;
      outcome, count := RetryPermissionDenied(Attempts(), script);
    }

    /** Recursive removal; a path that is not there counts as removed. A try that fails can leave any
        part of the directory, and so can several. */
    method RemoveDirectory(path: Path) returns (ok: bool)
      modifies this
      ensures path !in old(nodes) ==> ok
      ensures ok ==> nodes == old(nodes) - {path}
      ensures !ok ==>
                path in nodes && Torn(old(nodes)[path], nodes[path]) &&
                nodes == old(nodes)[path := nodes[path]]
      ensures faults == old(faults) + if ok then 0 else 1
    {
      var outcome := Retry(true);
      ok := outcome.Done? || path !in nodes;
      if ok {
        nodes := nodes - {path};
      } else {
        faults := faults + 1;
        if nodes[path].Tree? {
          var rest: Files := *;
          nodes := nodes[path := Tree(rest)];
        } else if nodes[path].Stage? {
          var rest: map<string, Files> := *;
          nodes := nodes[path := Stage(rest)];
        }
      }
    }

    /** Removal of one file or link; a path that is not there counts as removed. */
    method RemoveFile(path: Path) returns (ok: bool)
      modifies this
      ensures path !in old(nodes) ==> ok
      ensures nodes == if ok then old(nodes) - {path} else old(nodes)
      ensures faults == old(faults) + if ok then 0 else 1
    {
      ok := *;
      ok := ok || path !in nodes;
      if ok {
        nodes := nodes - {path};
      } else {
        faults := faults + 1;
      }
    }

    /** Creates or overwrites `path`. A failure can leave anything there. */
    method Write(path: Path, node: Node) returns (ok: bool)
      modifies this
      ensures ok ==> nodes == old(nodes)[path := node]
      ensures SameExcept(old(nodes), nodes, {path})
      ensures faults == old(faults) + if ok then 0 else 1
    {
      ok := *;
      if ok {
        nodes := nodes[path := node];
      } else {
        faults := faults + 1;
        if * {
          var rest: Node := *;
          nodes := nodes[path := rest];
        } else {
          nodes := nodes - {path};
        }
      }
    }

    /** Atomic rename of a file or link over whatever `destination` holds. */
    method RenameFile(source: Path, destination: Path) returns (ok: bool)
      requires source in nodes
      modifies this
      ensures nodes == if ok then Moved(old(nodes), source, destination) else old(nodes)
      ensures faults == old(faults) + if ok then 0 else 1
    {
      ok := *;
      if ok {
        nodes := Moved(nodes, source, destination);
      } else {
        faults := faults + 1;
      }
    }

    /** Moves one unpacked directory out of the staging directory onto a path that must be free. */
    method PublishStaged(staging: Path, directory: string, destination: Path) returns (ok: bool)
      requires staging in nodes && nodes[staging].Stage? && directory in nodes[staging].trees
      requires staging != destination
      modifies this
      ensures ok ==> destination !in old(nodes)
      ensures nodes == if ok then Published(old(nodes), staging, directory, destination) else old(nodes)
      ensures faults == old(faults) + if !ok && destination !in old(nodes) then 1 else 0
    {
      var possible := destination !in nodes;
      var outcome := Retry(possible);
      ok := outcome.Done?;
      if ok {
        nodes := Published(nodes, staging, directory, destination);
      } else if possible {
        faults := faults + 1;
      }
    }
  }

  function Published(m: Nodes, staging: Path, directory: string, destination: Path): Nodes
    requires staging in m && m[staging].Stage? && directory in m[staging].trees
  {
    m[staging := Stage(m[staging].trees - {directory})][destination := Tree(m[staging].trees[directory])]
  }
}

/** The resumable download of a runtime package: one attempt as a method over the two files, and
    what holds over any number of attempts against any server, and against an honest one.

    SHA-256 is the function `hash`; a hasher is the sequence of bytes it was fed. */
module ResumableDownload {
  import opened Wrappers
  import opened Text
  import opened PackageFiles
  import opened ContentRange

  const MAX_SIZE: nat := 2 * 1024 * 1024 * 1024
  const MAX_PIECE: nat := 0x7FFF_FFFF_FFFF_FFFF

  /** The catalog entry; the catalog promises the bounds. */
  datatype Release = Release(size: nat, sha256: string) {
    predicate Valid() { 0 < size <= MAX_SIZE }
  }

  /** What the server sends: a status, headers, and the pieces of the body, after which the
      connection may break. */
  datatype Reply = Reply(
    status: nat,
    contentRange: Option<string>,
    contentLength: Option<nat>,
    pieces: seq<Bytes>,
    broken: bool)
  {
    predicate Valid() { forall i :: 0 <= i < |pieces| ==> |pieces[i]| <= MAX_PIECE }
    function Body(): Bytes { Flatten(pieces) }
  }

  datatype Error =
    | Cancelled
    | Io
    | Transport
    | BadStatus
    | BadRange
    | BadLength
    | TooLarge
    | Incomplete
    | Mismatch
    | Unverified

  datatype Outcome = Done | Failed(error: Error)

  // ---- what an attempt does when nothing interferes ----

  /** The bytes an attempt starts from: a partial file that is too long, or is no file, is removed. */
  function Usable(partial: Option<Entry>, size: nat): (r: Bytes)
    ensures |r| <= size
  {
    match partial
    case Some(File(bytes)) => if |bytes| <= size then bytes else []
    case _ => []
  }

  function Kept(partial: Option<Entry>, size: nat): Option<Entry> {
    match partial
    case Some(File(bytes)) => if |bytes| <= size then partial else None
    case _ => None
  }

  /** What the body of a reply will be appended to, if the reply is acceptable. */
  function Base(have: Bytes, size: nat, reply: Reply): Option<Bytes>
    requires 0 < size
  {
    if reply.status == 200 then
      Some([])
    else if have != [] && reply.status == 206 && reply.contentRange == Some(ByteRange(|have|, size - 1, size)) then
      Some(have)
    else
      None
  }

  function Refused(have: Bytes, reply: Reply): Error {
    if have != [] && reply.status == 206 then BadRange else BadStatus
  }

  predicate LengthFits(base: Bytes, size: nat, reply: Reply) {
    |base| <= size && (reply.contentLength.Some? ==> reply.contentLength.value == size - |base|)
  }

  /** The files when all of `whole` was received. */
  function Concluded(d: Disk, whole: Bytes, release: Release, broken: bool, hash: Bytes -> string)
    : (Outcome, Disk)
  {
    if |whole| > release.size then
      (Failed(TooLarge), d.(partial := None))
    else if broken then
      (Failed(Transport), d.(partial := Some(File(whole))))
    else if |whole| < release.size then
      (Failed(Incomplete), d.(partial := Some(File(whole))))
    else if hash(whole) != release.sha256 then
      (Failed(Mismatch), d.(partial := None))
    else
      (Done, Disk(None, Some(File(whole))))
  }

  /** An attempt in which no step fails and nobody cancels. `reply` is `None` when no response
      arrives. */
  function Quiet(d: Disk, release: Release, reply: Option<Reply>, hash: Bytes -> string)
    : (Outcome, Disk)
    requires release.Valid()
  {
    var have := Usable(d.partial, release.size);
    var kept := d.(partial := Kept(d.partial, release.size));
    if |have| == release.size then
      if hash(have) == release.sha256 then
        (Done, Disk(None, Some(File(have))))
      else
        (Failed(Unverified), d.(partial := None))
    else if reply.None? then
      (Failed(Transport), kept)
    else
      match Base(have, release.size, reply.value)
      case None => (Failed(Refused(have, reply.value)), kept)
      case Some(base) =>
        if !LengthFits(base, release.size, reply.value) then
          (Failed(BadLength), if base != [] then d.(partial := None) else kept)
        else
          Concluded(d, base + reply.value.Body(), release, reply.value.broken, hash)
  }

  // ---- what holds of every attempt, whatever interferes ----

  /** `bytes` is what an attempt started from followed by a beginning of what it received. */
  ghost predicate Received(d: Disk, release: Release, reply: Option<Reply>, bytes: Bytes)
    requires release.Valid()
  {
    var have := Usable(d.partial, release.size);
    || bytes == have
    || (reply.Some? && Base(have, release.size, reply.value).Some? &&
        exists n: nat :: n <= |reply.value.Body()| &&
                         bytes == Base(have, release.size, reply.value).value + reply.value.Body()[..n])
  }

  predicate Genuine(bytes: Bytes, release: Release, hash: Bytes -> string) {
    |bytes| == release.size && hash(bytes) == release.sha256
  }

  /** These verdicts are about the bytes, not about the connection. */
  predicate Condemned(error: Error) {
    error in {Mismatch, Unverified, TooLarge}
  }

  /** The finished file appears only whole and verified. The partial file is left alone, removed, or
      holds what was received, never more than the catalog's size; condemned bytes are gone. */
  ghost predicate Possible(
    d: Disk, release: Release, reply: Option<Reply>, hash: Bytes -> string, outcome: Outcome, after: Disk)
    requires release.Valid()
  {
    match outcome
    case Done =>
      && after.partial == None
      && after.target.Some? && after.target.value.File?
      && Genuine(after.target.value.bytes, release, hash)
      && Received(d, release, reply, after.target.value.bytes)
    case Failed(error) =>
      && after.target == d.target
      && (Condemned(error) ==> after.partial == None)
      && (|| after.partial == d.partial
          || after.partial == None
          || (after.partial.value.File? && |after.partial.value.bytes| <= release.size &&
              Received(d, release, reply, after.partial.value.bytes)))
  }

  // ---- the methods ----

  /** Feeds the whole file to a hasher, a buffer at a time. */
  method HashFile(bytes: Bytes) returns (hashed: Bytes)
    ensures hashed == bytes
  {
    var position := 0;
    hashed := [];
    while position < |bytes|
      invariant position <= |bytes| && hashed == bytes[..position]
    {
      var count := if |bytes| - position < 0x1_0000 then |bytes| - position else 0x1_0000;
      hashed := hashed + bytes[position..position + count];
      position := position + count;
    }
  }

  /** The bytes that can be kept, as a length and a hasher fed with them. */
  method ResumablePartial(files: PackageFiles, release: Release)
    returns (ok: bool, downloaded: nat, hashed: Bytes)
    modifies files`partial, files`faults
    ensures ok <==> files.faults == old(files.faults)
    ensures old(files.faults) <= files.faults
    ensures ok ==>
              && hashed == Usable(old(files.partial), release.size) && downloaded == |hashed|
              && files.partial == Kept(old(files.partial), release.size)
    ensures !ok ==> files.partial == old(files.partial)
  {
    downloaded, hashed := 0, [];
    ok := files.Visit();
    if !ok || files.partial == None {
      return;
    }
    if files.partial.value.NotFile? || |files.partial.value.bytes| > release.size {
      ok := files.RemovePartial();
      return;
    }
    ok := files.Visit();
    if !ok {
      return;
    }
    hashed := HashFile(files.partial.value.bytes);
    downloaded := |files.partial.value.bytes|;
  }

  /** A partial file that is already complete is verified from disk. */
  method FinishComplete(files: PackageFiles, release: Release, hash: Bytes -> string)
    returns (outcome: Outcome)
    requires files.partial.Some? && files.partial.value.File?
    requires |files.partial.value.bytes| == release.size
    modifies files
    ensures old(files.faults) <= files.faults
    ensures outcome.Done? ==> Genuine(old(files.partial).value.bytes, release, hash)
    ensures outcome.Done? ==> files.Contents() == Disk(None, old(files.partial))
    ensures outcome.Failed? ==>
              files.target == old(files.target) && files.partial in {None, old(files.partial)} &&
              (Condemned(outcome.error) ==> files.partial == None)
    ensures files.faults == old(files.faults) ==>
              if hash(old(files.partial).value.bytes) == release.sha256 then
                outcome.Done?
              else
                outcome == Failed(Unverified) && files.partial == None
  {
    var ok := files.Visit();
    var verified := ok;
    if ok {
      var hashed := HashFile(files.partial.value.bytes);
      verified := hash(hashed) == release.sha256;
    }
    if !verified {
      ok := files.RemovePartial();
      return Failed(if ok then Unverified else Io);
    }
    ok := files.Finalize();
    outcome := if ok then Done else Failed(Io);
  }

  /** Whether to append, and to what the hasher is reset. */
  method Accept(have: Bytes, release: Release, reply: Reply) returns (base: Option<Bytes>, append: bool)
    requires release.Valid()
    ensures base == Base(have, release.size, reply)
    ensures base.Some? ==> append == (base.value != []) && (append ==> base.value == have)
  {
    if have == [] {
      append := false;
      base := if reply.status == 200 then Some([]) else None;
    } else if reply.status == 206 {
      append := reply.contentRange == Some(ByteRange(|have|, release.size - 1, release.size));
      base := if append then Some(have) else None;
    } else if reply.status == 200 {
      append := false;
      base := Some([]);
    } else {
      append := false;
      base := None;
    }
  }

  /** What is on disk, counted and hashed after `i` pieces of the body. */
  predicate InStep(files: PackageFiles, base: Bytes, reply: Reply, i: nat, downloaded: nat, hashed: Bytes)
    reads files
  {
    && i <= |reply.pieces|
    && hashed == base + Flatten(reply.pieces[..i])
    && downloaded == |hashed|
    && files.partial == Some(File(hashed))
  }

  lemma NextPiece(reply: Reply, i: nat)
    requires i < |reply.pieces|
    ensures Flatten(reply.pieces[..i + 1]) == Flatten(reply.pieces[..i]) + reply.pieces[i]
    ensures |Flatten(reply.pieces[..i + 1])| <= |reply.Body()|
  {
    FlattenPrefix(reply.pieces, i + 1);
    assert reply.pieces[..i + 1][..i] == reply.pieces[..i];
  }

  lemma PartOfPiece(reply: Reply, i: nat, written: nat)
    requires i < |reply.pieces| && written <= |reply.pieces[i]|
    ensures var n := |Flatten(reply.pieces[..i])| + written;
            n <= |reply.Body()| &&
            reply.Body()[..n] == Flatten(reply.pieces[..i]) + reply.pieces[i][..written]
  {
    NextPiece(reply, i);
    FlattenPrefix(reply.pieces, i + 1);
  }

  /** Some beginning of the body was added to `base`. */
  ghost predicate Grown(partial: Option<Entry>, base: Bytes, reply: Reply, size: nat) {
    partial.Some? ==>
      partial.value.File? && |partial.value.bytes| <= size &&
      exists n: nat :: n <= |reply.Body()| && partial.value.bytes == base + reply.Body()[..n]
  }

  /** One turn of the receive loop. */
  method TakePiece(
    files: PackageFiles, flag: CancelFlag, release: Release, reply: Reply, base: Bytes,
    i: nat, downloaded: nat, hashed: Bytes)
    returns (failed: Option<Error>, downloaded': nat, hashed': Bytes)
    requires release.Valid() && reply.Valid() && downloaded <= release.size
    requires i < |reply.pieces| && InStep(files, base, reply, i, downloaded, hashed)
    modifies files, flag
    ensures old(flag.requested) ==> flag.requested
    ensures old(files.faults) <= files.faults && files.target == old(files.target)
    ensures failed == None ==>
              downloaded' <= release.size && files.faults == old(files.faults) &&
              InStep(files, base, reply, i + 1, downloaded', hashed')
    ensures failed.Some? ==>
              Grown(files.partial, base, reply, release.size) &&
              (Condemned(failed.value) ==> files.partial == None)
    ensures failed.Some? && files.faults == old(files.faults) && !flag.requested ==>
              failed.value == TooLarge && files.partial == None && |base + reply.Body()| > release.size
  {
    downloaded', hashed' := downloaded, hashed;
    var piece := reply.pieces[i];
    ghost var before := Flatten(reply.pieces[..i]);
    NextPiece(reply, i);
    PartOfPiece(reply, i, 0);
    assert before + piece[..0] == before;
    var cancelled := flag.Poll();
    if cancelled {
      return Some(Cancelled), downloaded, hashed;
    }
    cancelled := flag.Poll();
    if cancelled {
      var removed := files.RemovePartial();
      return Some(Cancelled), downloaded, hashed;
    }
    assert downloaded + |piece| <= MAX_U64;
    downloaded' := downloaded + |piece|;
    if downloaded' > release.size {
      var removed := files.RemovePartial();
      return Some(if removed then TooLarge else Io), downloaded', hashed;
    }
    var ok;
    ghost var written;
    ok, written := files.Append(piece);
    PartOfPiece(reply, i, written);
    assert files.partial.value.bytes == base + (before + piece[..written]);
    if !ok {
      return Some(Io), downloaded', hashed;
    }
    assert piece[..written] == piece;
    hashed' := hashed + piece;
    failed := None;
  }

  /** The body, piece by piece, onto `base`; then the end of the download. */
  method Receive(
    files: PackageFiles, flag: CancelFlag, release: Release, reply: Reply, base: Bytes, hash: Bytes -> string)
    returns (outcome: Outcome)
    requires release.Valid() && reply.Valid() && |base| <= release.size
    requires files.partial == Some(File(base))
    modifies files, flag
    ensures old(flag.requested) ==> flag.requested
    ensures old(files.faults) <= files.faults
    ensures files.faults == old(files.faults) && !flag.requested ==>
              (outcome, files.Contents()) ==
              Concluded(old(files.Contents()), base + reply.Body(), release, reply.broken, hash)
    ensures outcome.Done? ==>
              files.Contents() == Disk(None, Some(File(base + reply.Body()))) &&
              Genuine(base + reply.Body(), release, hash)
    ensures outcome.Failed? ==>
              files.target == old(files.target) && Grown(files.partial, base, reply, release.size) &&
              (Condemned(outcome.error) ==> files.partial == None)
  {
    var downloaded: nat, hashed := |base|, base;
    var i: nat := 0;
    while i < |reply.pieces|
      invariant InStep(files, base, reply, i, downloaded, hashed)
      invariant downloaded <= release.size
      invariant files.target == old(files.target) && files.faults == old(files.faults)
      invariant old(flag.requested) ==> flag.requested
    {
      var failed;
      failed, downloaded, hashed := TakePiece(files, flag, release, reply, base, i, downloaded, hashed);
      if failed.Some? {
        return Failed(failed.value);
      }
      i := i + 1;
    }
    assert reply.pieces[..i] == reply.pieces;
    assert reply.Body()[..|reply.Body()|] == reply.Body();
    outcome := Conclude(files, flag, release, reply, hashed, hash);
  }

  /** The end of the body: the connection broke, or the package is complete, or it is not. */
  method Conclude(
    files: PackageFiles, flag: CancelFlag, release: Release, reply: Reply, hashed: Bytes, hash: Bytes -> string)
    returns (outcome: Outcome)
    requires |hashed| <= release.size
    requires files.partial == Some(File(hashed))
    modifies files, flag
    ensures old(flag.requested) ==> flag.requested
    ensures old(files.faults) <= files.faults
    ensures files.faults == old(files.faults) && !flag.requested ==>
              (outcome, files.Contents()) ==
              Concluded(old(files.Contents()), hashed, release, reply.broken, hash)
    ensures outcome.Done? ==>
              files.Contents() == Disk(None, Some(File(hashed))) && Genuine(hashed, release, hash)
    ensures outcome.Failed? ==>
              files.target == old(files.target) && files.partial in {None, old(files.partial)} &&
              (Condemned(outcome.error) ==> files.partial == None)
  {
    var cancelled := flag.Poll();
    if cancelled {
      return Failed(Cancelled);
    }
    if reply.broken {
      cancelled := flag.Poll();
      if cancelled {
        var removed := files.RemovePartial();
        return Failed(Cancelled);
      }
      var flushed := files.Visit();
      return Failed(if flushed then Transport else Io);
    }
    var flushed := files.Visit();
    if !flushed {
      return Failed(Io);
    }
    cancelled := flag.Poll();
    if cancelled {
      var removed := files.RemovePartial();
      return Failed(Cancelled);
    }
    if |hashed| != release.size {
      return Failed(Incomplete);
    }
    if hash(hashed) != release.sha256 {
      var removed := files.RemovePartial();
      return Failed(if removed then Mismatch else Io);
    }
    var ok := files.Finalize();
    outcome := if ok then Done else Failed(Io);
  }

  /** One attempt, up to the removal that follows a cancellation. */
  method AttemptInner(
    files: PackageFiles, flag: CancelFlag, release: Release, reply: Option<Reply>, hash: Bytes -> string)
    returns (outcome: Outcome)
    requires release.Valid() && (reply.Some? ==> reply.value.Valid())
    modifies files, flag
    ensures old(flag.requested) ==> flag.requested
    ensures old(files.faults) <= files.faults
    ensures files.faults == old(files.faults) && !flag.requested ==>
              (outcome, files.Contents()) == Quiet(old(files.Contents()), release, reply, hash)
    ensures Possible(old(files.Contents()), release, reply, hash, outcome, files.Contents())
  {
    var cancelled := flag.Poll();
    if cancelled {
      return Failed(Cancelled);
    }
    var ok, downloaded, hashed := ResumablePartial(files, release);
    if !ok {
      return Failed(Io);
    }
    if downloaded == release.size {
      outcome := FinishComplete(files, release, hash);
      return;
    }
    cancelled := flag.Poll();
    if cancelled {
      return Failed(Cancelled);
    }
    if reply == None {
      return Failed(Transport);
    }
    var base, append := Accept(hashed, release, reply.value);
    if base == None {
      return Failed(Refused(hashed, reply.value));
    }
    var expected := release.size - |base.value|;
    if reply.value.contentLength.Some? && reply.value.contentLength.value != expected {
      if append {
        ok := files.RemovePartial();
        if !ok {
          return Failed(Io);
        }
      }
      return Failed(BadLength);
    }
    if append {
      ok := files.Visit();
    } else {
      ok := files.CreatePartial();
    }
    if !ok {
      return Failed(Io);
    }
    outcome := Receive(files, flag, release, reply.value, base.value, hash);
    if outcome.Done? {
      assert reply.value.Body()[..|reply.value.Body()|] == reply.value.Body();
    }
  }

  method Attempt(
    files: PackageFiles, flag: CancelFlag, release: Release, reply: Option<Reply>, hash: Bytes -> string)
    returns (outcome: Outcome)
    requires release.Valid() && (reply.Some? ==> reply.value.Valid())
    modifies files, flag
    ensures old(flag.requested) ==> flag.requested
    ensures old(files.faults) <= files.faults
    ensures files.faults == old(files.faults) && !flag.requested ==>
              (outcome, files.Contents()) == Quiet(old(files.Contents()), release, reply, hash)
    ensures Possible(old(files.Contents()), release, reply, hash, outcome, files.Contents())
    ensures files.faults == old(files.faults) && flag.requested && outcome.Failed? ==> files.partial == None
  {
    outcome := AttemptInner(files, flag, release, reply, hash);
    if outcome.Failed? {
      var cancelled := flag.Poll();
      if cancelled {
        var removed := files.RemovePartial();
        if !removed {
          outcome := Failed(Io);
        }
      }
    }
  }

  function QuietDownload(d: Disk, release: Release, reply: Option<Reply>, hash: Bytes -> string)
    : (Outcome, Disk)
    requires release.Valid()
  {
    if d.target.Some? && d.target.value.File? && Genuine(d.target.value.bytes, release, hash) then
      (Done, d)
    else
      Quiet(d.(target := None), release, reply, hash)
  }

  /** A finished file that is whole and verified is used as it is; any other is removed first. */
  method Download(
    files: PackageFiles, flag: CancelFlag, release: Release, reply: Option<Reply>, hash: Bytes -> string)
    returns (outcome: Outcome)
    requires release.Valid() && (reply.Some? ==> reply.value.Valid())
    modifies files, flag
    ensures old(flag.requested) ==> flag.requested
    ensures outcome.Done? ==>
              files.target.Some? && files.target.value.File? &&
              Genuine(files.target.value.bytes, release, hash)
    ensures outcome.Failed? ==> files.target in {None, old(files.target)}
    ensures Possible(Disk(old(files.partial), None), release, reply, hash, outcome, files.Contents())
            || files.partial == old(files.partial)
    ensures files.faults == old(files.faults) && !flag.requested ==>
              (outcome, files.Contents()) == QuietDownload(old(files.Contents()), release, reply, hash)
    ensures outcome.Failed? && files.faults == old(files.faults) && files.target.Some? ==>
              flag.requested && files.Contents() == old(files.Contents())
  {
    var cancelled := flag.Poll();
    if cancelled {
      return Failed(Cancelled);
    }
    var ok;
    if files.target.Some? && files.target.value.File? && |files.target.value.bytes| == release.size {
      ok := files.Visit();
      if ok {
        var hashed := HashFile(files.target.value.bytes);
        if hash(hashed) == release.sha256 {
          return Done;
        }
      }
    }
    ok := files.RemoveTarget();
    if !ok {
      return Failed(Io);
    }
    outcome := Attempt(files, flag, release, reply, hash);
  }
}

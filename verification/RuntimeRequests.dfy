/** Which requests the operations on installed runtimes accept, why they turn down the others, and what
    they leave, said of the request and the tree it finds. */
module RuntimeRequests {
  import opened Wrappers
  import opened Text
  import opened RuntimeFiles
  import opened RuntimeInstall
  import opened RuntimeSelection

  // ---- names, digests, sequence numbers ----

  lemma IdentifierIs(s: string)
    ensures IsIdentifier(s) <==>
      s != "" && s[0] != '.' && forall c :: c in s ==> c in LOWERCASE || c in UPPERCASE || c in DIGITS || c in ".-_"
  {
    Ranges();
    assert forall i :: 0 <= i < |s| ==> s[i] in s;
  }

  lemma DigestIs(s: string)
    ensures IsDigest(s) <==> |s| == 64 && forall c :: c in s ==> c in "0123456789abcdef"
  {
    var hex := "0123456789abcdef";
    forall c: char
      ensures c in hex <==> '0' <= c <= '9' || 'a' <= c <= 'f'
    {
      if '0' <= c <= '9' {
        assert hex[(c - '0') as int] == c;
      } else if 'a' <= c <= 'f' {
        assert hex[(c - 'a') as int + 10] == c;
      }
    }
    assert forall i :: 0 <= i < |s| ==> s[i] in s;
  }

  // ---- installing or replacing ----

  /** The installed directory may be replaced: it has no receipt, or a valid one of this name and version
      with another SHA-256. */
  predicate Replaceable(files: Files, request: Request) {
    RECEIPT_FILE in files ==>
      files[RECEIPT_FILE].Record? &&
      var receipt := files[RECEIPT_FILE].receipt;
      && receipt.schemaVersion == 1 && receipt.name == request.name && receipt.version == request.version
      && IsDigest(receipt.packageSha256) && 0 < receipt.catalogSequence < 0x20_0000_0000_0000
      && receipt.packageSha256 != request.sha256
  }

  /** Exactly the requests that open a transaction. */
  lemma BeginAccepts(m: Nodes, request: Request)
    ensures BeginResult(m, request).Ok? <==>
      && IsIdentifier(request.name) && IsIdentifier(request.version)
      && IsDigest(request.sha256) && 0 < request.catalogSequence < 0x20_0000_0000_0000
      && request.digest == request.sha256
      && ValidSelection(m, request.name)
      && Backup(request.name, request.version) !in m
      && (Root(request.name, request.version) in m ==>
            m[Root(request.name, request.version)].Tree? &&
            Replaceable(m[Root(request.name, request.version)].files, request))
      && request.archive.Some? && request.version in request.archive.value
      && request.healthy(Packaged(request))
  {
  }

  /** What the transaction notes. */
  lemma BeginNotes(m: Nodes, request: Request)
    requires BeginResult(m, request).Ok?
    ensures var tx := BeginResult(m, request).value;
      && tx.name == request.name && tx.version == request.version
      && (tx.replaced <==> Root(request.name, request.version) in m)
      && Look(m, Active(request.name)) ==
         (match tx.activeBefore case Some(version) => Some(Choice(version)) case None => None)
      && tx.marker == Look(m, Marker(request.name, request.version))
  {
  }

  /** The tree with an open transaction, path by path. */
  lemma BeginLeaves(m: Nodes, request: Request)
    requires BeginResult(m, request).Ok?
    ensures var after := BeginNodes(m, request);
      && Look(after, Root(request.name, request.version)) == Some(Tree(Packaged(request)))
      && Look(after, Backup(request.name, request.version)) == Look(m, Root(request.name, request.version))
      && Staging(request.name + "-" + request.version) !in after
      && Marker(request.name, request.version) !in after
      && Look(after, Active(request.name)) ==
         (if request.activate then Some(Choice(request.version)) else Look(m, Active(request.name)))
      && (request.activate ==> Pending(request.name) !in after)
      && SameExcept(m, after,
           {Root(request.name, request.version), Backup(request.name, request.version), Active(request.name),
            Staging(request.name + "-" + request.version), Marker(request.name, request.version)}
           + if request.activate then {Pending(request.name)} else {})
  {
    hide InstalledSha;
  }

  /** The package is what was unpacked, with one receipt. */
  lemma PackagedIs(request: Request)
    requires request.archive.Some? && request.version in request.archive.value
    ensures var unpacked, packaged := request.archive.value[request.version], Packaged(request);
      && packaged.Keys == unpacked.Keys - {".fabdev-package.json.pending"} + {".fabdev-package.json"}
      && (forall file :: file in packaged && file != ".fabdev-package.json" ==> packaged[file] == unpacked[file])
      && packaged[".fabdev-package.json"] ==
         Record(Receipt(1, request.name, request.version, request.sha256, request.catalogSequence))
  {
    assert RECEIPT_PENDING == ".fabdev-package.json.pending";
  }

  predicate HasReceipt(node: Node) {
    (node.Tree? || node.Linked?) && RECEIPT_FILE in node.files
  }

  /** The checks of installing or replacing in their order. */
  ghost function BeginGuards(m: Nodes, request: Request): seq<Guard<Error>> {
    var installed := Look(m, Root(request.name, request.version));
    [Guard(IsIdentifier(request.name), InvalidIdentifier),
     Guard(IsIdentifier(request.version), InvalidIdentifier),
     Guard(IsDigest(request.sha256), InvalidReceipt),
     Guard(IsSequence(request.catalogSequence), InvalidReceipt),
     Guard(request.digest == request.sha256, ChecksumMismatch),
     Guard(ValidSelection(m, request.name), InvalidActiveLink),
     Guard(Look(m, Backup(request.name, request.version)) == None, BackupExists),
     Guard(installed.Some? ==> installed.value.Tree? || installed.value.Linked?, Io),
     Guard(installed.Some? && HasReceipt(installed.value) ==>
             installed.value.files[RECEIPT_FILE].Record? &&
             var receipt := installed.value.files[RECEIPT_FILE].receipt;
             && receipt.schemaVersion == 1 && receipt.name == request.name && receipt.version == request.version
             && IsDigest(receipt.packageSha256) && IsSequence(receipt.catalogSequence), InvalidReceipt),
     Guard(installed.Some? && HasReceipt(installed.value) && installed.value.files[RECEIPT_FILE].Record? ==>
             installed.value.files[RECEIPT_FILE].receipt.packageSha256 != request.sha256, AlreadyInstalled),
     Guard(installed.Some? ==> installed.value.Tree?, AlreadyInstalled),
     Guard(request.archive.Some?, Io),
     Guard(request.archive.Some? ==> request.version in request.archive.value, InvalidArchive),
     Guard(request.archive.Some? && request.version in request.archive.value ==>
             request.healthy(Packaged(request)), Unhealthy)]
  }

  lemma BeginAnswers(m: Nodes, request: Request)
    ensures Answers(BeginGuards(m, request), BeginResult(m, request))
  {
    var guards := BeginGuards(m, request);
    BeginAccepts(m, request);
    assert guards[0].error == guards[1].error == InvalidIdentifier;
    assert guards[2].error == guards[3].error == InvalidReceipt;
    assert guards[4].error == ChecksumMismatch && guards[5].error == InvalidActiveLink;
    assert guards[6].error == BackupExists && guards[7].error == Io && guards[8].error == InvalidReceipt;
    assert guards[9].error == guards[10].error == AlreadyInstalled;
    assert guards[11].error == Io && guards[12].error == InvalidArchive && guards[13].error == Unhealthy;
  }

  /** A request that is turned down leaves the tree alone; if that is for its package, without a staging
      directory. */
  lemma BeginLeavesAlone(m: Nodes, request: Request)
    requires BeginResult(m, request).Err?
    ensures BeginNodes(m, request) ==
            if forall k :: 0 <= k < 11 ==> BeginGuards(m, request)[k].holds then
              m - {Staging(request.name + "-" + request.version)}
            else m
  {
    var guards := BeginGuards(m, request);
    assert (forall k :: 0 <= k < 11 ==> guards[k].holds) <==>
           && guards[0].holds && guards[1].holds && guards[2].holds && guards[3].holds && guards[4].holds
           && guards[5].holds && guards[6].holds && guards[7].holds && guards[8].holds && guards[9].holds
           && guards[10].holds;
  }

  // ---- rolling back ----

  /** The tree after a rollback, path by path. */
  lemma RollbackLeaves(m: Nodes, tx: Transaction)
    requires tx.replaced ==> Backup(tx.name, tx.version) in m
    ensures var after := RollbackNodes(m, tx);
      && Look(after, Root(tx.name, tx.version)) ==
         (if tx.replaced then Look(m, Backup(tx.name, tx.version)) else None)
      && Look(after, Backup(tx.name, tx.version)) ==
         (if tx.replaced then None else Look(m, Backup(tx.name, tx.version)))
      && Staging(tx.name + "-" + tx.version) !in after
      && Look(after, Active(tx.name)) ==
         (match tx.activeBefore case Some(version) => Some(Choice(version)) case None => None)
      && Look(after, Pending(tx.name)) == (if tx.activeBefore.Some? then None else Look(m, Pending(tx.name)))
      && Look(after, Marker(tx.name, tx.version)) ==
         (if tx.marker.Some? then tx.marker else Look(m, Marker(tx.name, tx.version)))
      && SameExcept(m, after,
           {Root(tx.name, tx.version), Backup(tx.name, tx.version), Staging(tx.name + "-" + tx.version),
            Active(tx.name), Pending(tx.name), Marker(tx.name, tx.version)})
  {
  }

  /** Without the directory that was set aside the new one is removed and all else left as it was. */
  lemma RollbackWithoutBackup(m: Nodes, tx: Transaction)
    requires tx.replaced && Backup(tx.name, tx.version) !in m
    ensures RollbackNodes(m, tx) == m - {Root(tx.name, tx.version)}
  {
  }

  // ---- marking as removed ----

  lemma MarkLeaves(m: Nodes, name: string, version: string)
    ensures var after, marker := MarkedNodes(m, name, version), Marker(name, version);
      if IsIdentifier(name) && IsIdentifier(version) then
        && SameExcept(m, after, {marker})
        && marker in after && after[marker].Data? && after[marker].content.Bytes?
        && |after[marker].content.data| == 8 && after[marker].content.data[..7] == "removed"
      else
        after == m
  {
    assert "removed\n"[..7] == "removed";
  }
}

/** The runtime catalog: which one is accepted, how it is kept, and what survives a crash.

    `parse` tells schema and sequence of a document that passes every other check at the time; it may
    differ from one check to the next. `hash` is SHA-256. */
module Catalog {
  import opened Wrappers
  import opened Text
  import opened PackageFiles
  import RuntimeInstall

  datatype Error =
    | Unreadable
    | Unavailable
    | Invalid
    | WrongSchema
    | SequenceRollback
    | SequenceHashMismatch

  datatype Header = Header(schema: nat, sequence: nat)

  type Parser = Bytes -> Option<Header>

  /** The content of accepted-catalog.json. */
  datatype Accepted = Accepted(schema: nat, sequence: nat, sha256: string)

  datatype Name = CatalogFile(schema: nat) | AcceptedFile

  datatype Stored = Document(bytes: Bytes) | Note(accepted: Accepted) | Junk

  type Files = map<Name, Stored>

  /** `Ok(None)`: nothing was accepted yet. */
  function LoadAccepted(files: Files): Result<Option<Accepted>, Error> {
    if AcceptedFile !in files then Ok(None)
    else if files[AcceptedFile].Note? then Ok(Some(files[AcceptedFile].accepted))
    else Err(Unreadable)
  }

  /** The part of the validation that compares with what was accepted before. */
  function Validate(
    bytes: Bytes, accepted: Option<Accepted>, parse: Parser, hash: Bytes -> string): Result<Header, Error>
  {
    match parse(bytes)
    case None => Err(Invalid)
    case Some(header) =>
      if accepted.Some? && accepted.value.schema != header.schema then Err(Invalid)
      else if accepted.Some? && !RuntimeInstall.IsDigest(accepted.value.sha256) then Err(Invalid)
      else if accepted.Some? && header.sequence < accepted.value.sequence then Err(SequenceRollback)
      else if accepted.Some? && header.sequence == accepted.value.sequence &&
              hash(bytes) != accepted.value.sha256 then Err(SequenceHashMismatch)
      else Ok(header)
  }

  function Fetched(
    bytes: Bytes, schema: nat, accepted: Option<Accepted>, parse: Parser, hash: Bytes -> string): Result<Header, Error>
  {
    match Validate(bytes, accepted, parse, hash)
    case Err(e) => Err(e)
    case Ok(header) => if header.schema == schema then Ok(header) else Err(WrongSchema)
  }

  function OfSchema(accepted: Option<Accepted>, schema: nat): Option<Accepted> {
    if accepted.Some? && accepted.value.schema == schema then accepted else None
  }

  datatype Update = Update(bytes: Bytes, header: Header)

  /** Which of the replies of the two catalog addresses (`None`: unavailable) is taken. */
  function Decide(
    files: Files, v2: Option<Bytes>, v1: Option<Bytes>, parse: Parser, hash: Bytes -> string): Result<Update, Error>
  {
    match LoadAccepted(files)
    case Err(e) => Err(e)
    case Ok(accepted) =>
      if v2.Some? then
        match Fetched(v2.value, 2, OfSchema(accepted, 2), parse, hash)
        case Err(e) => Err(e)
        case Ok(header) => Ok(Update(v2.value, header))
      else if OfSchema(accepted, 2).Some? || v1.None? then
        Err(Unavailable)
      else
        match Fetched(v1.value, 1, OfSchema(accepted, 1), parse, hash)
        case Err(e) => Err(e)
        case Ok(header) => Ok(Update(v1.value, header))
  }

  // ---- keeping it ----

  function Noted(update: Update, hash: Bytes -> string): Accepted {
    Accepted(update.header.schema, update.header.sequence, hash(update.bytes))
  }

  const FINISHED: nat := 4

  /** The files once `point` of the four changes were made: the old document goes, the new one
      appears, the old note goes, the new one appears. */
  function Persisted(files: Files, update: Update, hash: Bytes -> string, point: nat): Files {
    var name := CatalogFile(update.header.schema);
    var without := if point == 0 then files else files - {name};
    var with := if point <= 1 then without else without[name := Document(update.bytes)];
    var unnoted := if point <= 2 then with else with - {AcceptedFile};
    if point <= 3 then unnoted else unnoted[AcceptedFile := Note(Noted(update, hash))]
  }

  class CatalogCache {
    var files: Files
    var parts: Files
    ghost var faults: nat

    constructor (files: Files)
      ensures this.files == files && faults == 0
    {
      this.files, parts, faults := files, map[], 0;
    }

    /** A step that may fail and changes neither file. */
    method Visit() returns (ok: bool)
      modifies this`faults
      ensures faults == old(faults) + if ok then 0 else 1
    {
      ok := *;
      if !ok {
        faults := faults + 1;
      }
    }

    /** A fresh file beside the target, synced; then the target goes and the file takes its name.
        `replaced`: how far it came. */
    method WriteAtomically(name: Name, content: Stored) returns (ok: bool)
      modifies this
      ensures ok ==> files == old(files)[name := content]
      ensures !ok ==> files in {old(files), old(files) - {name}}
      ensures faults == old(faults) + if ok then 0 else 1
    {
      ok := Visit();
      if !ok {
        return;
      }
      parts := parts - {name};
      ok := Visit();
      if !ok {
        return;
      }
      parts := parts[name := Junk];
      ok := Visit();
      if !ok {
        return;
      }
      parts := parts[name := content];
      ok := Visit();
      if !ok {
        return;
      }
      files := files - {name};
      ok := Visit();
      if !ok {
        return;
      }
      files := files[name := parts[name]];
      parts := parts - {name};
    }

    /** A failure, like a crash, leaves the files at one of the points before the last. */
    method Persist(update: Update, hash: Bytes -> string) returns (ok: bool, ghost point: nat)
      modifies this
      ensures point <= FINISHED && (ok <==> point == FINISHED)
      ensures files == Persisted(old(files), update, hash, point)
      ensures faults == old(faults) + if ok then 0 else 1
    {
      point := 0;
      ok := Visit();
      if !ok {
        return;
      }
      var name := CatalogFile(update.header.schema);
      ok := WriteAtomically(name, Document(update.bytes));
      if !ok {
        point := if files == old(files) then 0 else 1;
        return;
      }
      ghost var documented := files;
      assert documented == Persisted(old(files), update, hash, 2);
      ok := WriteAtomically(AcceptedFile, Note(Noted(update, hash)));
      if ok {
        point := FINISHED;
        assert files == Persisted(old(files), update, hash, 4);
      } else {
        point := if files == documented then 2 else 3;
      }
    }

    method CheckForUpdates(v2: Option<Bytes>, v1: Option<Bytes>, parse: Parser, hash: Bytes -> string)
      returns (r: Result<Header, Error>, ghost point: nat)
      modifies this
      ensures var decision := Decide(old(files), v2, v1, parse, hash);
              && point <= FINISHED
              && (r.Ok? ==> decision.Ok? && r == Ok(decision.value.header) && point == FINISHED)
              && files == (if decision.Ok? then Persisted(old(files), decision.value, hash, point) else old(files))
              && (faults == old(faults) ==> (r.Ok? <==> decision.Ok?))
    {
      point := 0;
      var ok := Visit();
      if !ok {
        return Err(Unreadable), point;
      }
      var accepted := LoadAccepted(files);
      if accepted.Err? {
        return Err(accepted.error), point;
      }
      var accepted2 := OfSchema(accepted.value, 2);
      var update: Update;
      if v2.Some? {
        var validated := Fetched(v2.value, 2, accepted2, parse, hash);
        if validated.Err? {
          return Err(validated.error), point;
        }
        update := Update(v2.value, validated.value);
      } else if accepted2.Some? {
        return Err(Unavailable), point;
      } else {
        if v1 == None {
          return Err(Unavailable), point;
        }
        var validated := Fetched(v1.value, 1, OfSchema(accepted.value, 1), parse, hash);
        if validated.Err? {
          return Err(validated.error), point;
        }
        update := Update(v1.value, validated.value);
      }
      ok, point := Persist(update, hash);
      r := if ok then Ok(update.header) else Err(Unreadable);
    }

    /** The catalog that is used without asking the server. */
    method CachedCatalog(parse: Parser, hash: Bytes -> string) returns (r: Result<Header, Error>)
      modifies this`faults
      ensures r.Ok? ==> r == Cached(files, parse, hash)
      ensures faults == old(faults) ==> r == Cached(files, parse, hash)
    {
      var ok := Visit();
      if !ok {
        return Err(Unreadable);
      }
      var accepted := LoadAccepted(files);
      if accepted.Err? {
        return Err(accepted.error);
      }
      if accepted.value.None? {
        return Err(Unreadable);
      }
      var schema := accepted.value.value.schema;
      if schema != 1 && schema != 2 {
        return Err(Invalid);
      }
      ok := Visit();
      var name := CatalogFile(schema);
      if !ok || name !in files || !files[name].Document? {
        return Err(Unreadable);
      }
      r := Validate(files[name].bytes, accepted.value, parse, hash);
    }
  }

  function Cached(files: Files, parse: Parser, hash: Bytes -> string): Result<Header, Error> {
    match LoadAccepted(files)
    case Err(e) => Err(e)
    case Ok(None) => Err(Unreadable)
    case Ok(Some(accepted)) =>
      var name := CatalogFile(accepted.schema);
      if accepted.schema != 1 && accepted.schema != 2 then Err(Invalid)
      else if name !in files || !files[name].Document? then Err(Unreadable)
      else Validate(files[name].bytes, Some(accepted), parse, hash)
  }

  // ---- order of acceptance ----

  /** A later sequence of the same schema, a later schema, or the very same document. */
  predicate NotBefore(a: Accepted, b: Accepted) {
    || a.schema < b.schema
    || (a.schema == b.schema && a.sequence < b.sequence)
    || a == b
  }

  predicate Kept(files: Files) {
    match LoadAccepted(files)
    case Ok(Some(accepted)) => accepted.schema in {1, 2}
    case _ => false
  }

  function Current(files: Files): Accepted
    requires Kept(files)
  {
    LoadAccepted(files).value.value
  }

  /** What is taken is not before what was accepted; version 2 is never left for version 1. */
  lemma DecideNotBefore(
    files: Files, v2: Option<Bytes>, v1: Option<Bytes>, parse: Parser, hash: Bytes -> string)
    requires Kept(files)
    ensures var decision := Decide(files, v2, v1, parse, hash);
            decision.Ok? ==> decision.value.header.schema in {1, 2} &&
                             NotBefore(Current(files), Noted(decision.value, hash))
  {
  }

  /** One check: the replies, and how far keeping the result came (`FINISHED`, or a failure or crash). */
  datatype Check = Check(v2: Option<Bytes>, v1: Option<Bytes>, parse: Parser, point: nat)

  function Checked(files: Files, check: Check, hash: Bytes -> string): Files {
    match Decide(files, check.v2, check.v1, check.parse, hash)
    case Ok(update) => Persisted(files, update, hash, check.point)
    case Err(_) => files
  }

  function AfterChecks(files: Files, checks: seq<Check>, hash: Bytes -> string): Files
    decreases |checks|
  {
    if checks == [] then files else AfterChecks(Checked(files, checks[0], hash), checks[1..], hash)
  }

  /** Over any sequence of checks with any replies, failures and crashes, as long as none falls between
      the removal of the note and its replacement: what is accepted never goes back, neither in
      schema nor in sequence, and the same pair means the same document. */
  lemma {:induction false} NeverBack(files: Files, checks: seq<Check>, hash: Bytes -> string)
    requires Kept(files)
    requires forall i :: 0 <= i < |checks| ==> checks[i].point != 3
    ensures Kept(AfterChecks(files, checks, hash))
    ensures NotBefore(Current(files), Current(AfterChecks(files, checks, hash)))
    decreases |checks|
  {
    if checks != [] {
      var c := checks[0];
      DecideNotBefore(files, c.v2, c.v1, c.parse, hash);
      NeverBack(Checked(files, c, hash), checks[1..], hash);
    }
  }

  /** At every point: a cached load fails, or tells a catalog that is not before the accepted one. */
  lemma CachedNotBefore(files: Files, check: Check, later: Parser, hash: Bytes -> string)
    requires Kept(files)
    ensures var loaded := Cached(Checked(files, check, hash), later, hash);
            loaded.Ok? ==>
              || Current(files).schema < loaded.value.schema
              || (Current(files).schema == loaded.value.schema &&
                  Current(files).sequence <= loaded.value.sequence)
  {
    DecideNotBefore(files, check.v2, check.v1, check.parse, hash);
  }

  /** A finished check can be loaded from the cache for as long as the document stays valid. */
  lemma FinishedIsCached(files: Files, check: Check, hash: Bytes -> string)
    requires Decide(files, check.v2, check.v1, check.parse, hash).Ok?
    requires forall bytes :: RuntimeInstall.IsDigest(hash(bytes))
    requires check.point == FINISHED
    ensures Cached(Checked(files, check, hash), check.parse, hash) ==
            Ok(Decide(files, check.v2, check.v1, check.parse, hash).value.header)
  {
  }

  /** The one point at which a crash loses the note; and without it any catalog of version 2 that
      is otherwise valid is accepted, whatever its sequence. */
  lemma NoteLostExactly(
    files: Files, check: Check, later: Bytes, parse: Parser, hash: Bytes -> string)
    requires Kept(files) && Decide(files, check.v2, check.v1, check.parse, hash).Ok?
    requires check.point <= FINISHED
    requires parse(later).Some? && parse(later).value.schema == 2
    ensures LoadAccepted(Checked(files, check, hash)) == Ok(None) <==> check.point == 3
    ensures check.point == 3 ==>
              Decide(Checked(files, check, hash), Some(later), None, parse, hash) ==
              Ok(Update(later, parse(later).value))
  {
  }

  /** Such a crash, followed by an old catalog: the accepted sequence goes back from 7 to 3. */
  lemma CrashLosesSequence()
    ensures exists files: Files, checks: seq<Check>, hash: Bytes -> string ::
              && Kept(files) && Kept(AfterChecks(files, checks, hash))
              && Current(files).schema == Current(AfterChecks(files, checks, hash)).schema == 2
              && Current(files).sequence == 7 && Current(AfterChecks(files, checks, hash)).sequence == 3
  {
    var sha := seq(64, _ => '0');
    var hash: Bytes -> string := _ => sha;
    var parse: Parser := bytes => Some(Header(2, |bytes|));
    var files: Files := map[AcceptedFile := Note(Accepted(2, 7, sha))];
    var newer, older: Bytes := [0, 0, 0, 0, 0, 0, 0, 0], [0, 0, 0];
    assert |newer| == 8 && |older| == 3;
    var crash, check := Check(Some(newer), None, parse, 3), Check(Some(older), None, parse, FINISHED);
    assert RuntimeInstall.IsDigest(sha);
    var crashed := Checked(files, crash, hash);
    assert LoadAccepted(crashed) == Ok(None);
    var after := Checked(crashed, check, hash);
    assert Current(after).sequence == 3;
    assert [crash, check][1..] == [check] && [check][1..] == [];
    assert AfterChecks(after, [], hash) == after;
    assert AfterChecks(crashed, [check], hash) == after;
    assert AfterChecks(files, [crash, check], hash) == after;
  }

  // ---- which catalog is taken ----

  /** What was accepted of this schema does not speak against the document. */
  predicate NotOutdated(files: Files, schema: nat, header: Header, sha256: string) {
    AcceptedFile in files && files[AcceptedFile].Note? && files[AcceptedFile].accepted.schema == schema ==>
      var accepted := files[AcceptedFile].accepted;
      && RuntimeInstall.IsDigest(accepted.sha256)
      && (header.sequence > accepted.sequence ||
          (header.sequence == accepted.sequence && sha256 == accepted.sha256))
  }

  predicate AcceptedSchema2(files: Files) {
    AcceptedFile in files && files[AcceptedFile].Note? && files[AcceptedFile].accepted.schema == 2
  }

  /** Exactly the documents that are taken: the reply of version 2 whenever there is one, that of version 1
      only if there is none and version 2 was never accepted; of the right schema and not outdated. */
  lemma TakenExactly(
    files: Files, v2: Option<Bytes>, v1: Option<Bytes>, parse: Parser, hash: Bytes -> string, u: Update)
    ensures Decide(files, v2, v1, parse, hash) == Ok(u) <==>
      && (AcceptedFile in files ==> files[AcceptedFile].Note?)
      && parse(u.bytes) == Some(u.header)
      && (|| (v2 == Some(u.bytes) && u.header.schema == 2)
          || (v2 == None && v1 == Some(u.bytes) && u.header.schema == 1 && !AcceptedSchema2(files)))
      && NotOutdated(files, u.header.schema, u.header, hash(u.bytes))
  {
  }

  // ---- the order of the checks ----

  ghost function AcceptedOf(files: Files, schema: nat): Option<Accepted> {
    if AcceptedFile in files && files[AcceptedFile].Note? && files[AcceptedFile].accepted.schema == schema then
      Some(files[AcceptedFile].accepted)
    else
      None
  }

  /** The checks of a document in their order. */
  ghost function DocumentGuards(
    bytes: Bytes, accepted: Option<Accepted>, parse: Parser, hash: Bytes -> string): seq<Guard<Error>>
  {
    var header := parse(bytes);
    [Guard(header.Some?, Invalid),
     Guard(accepted.Some? && header.Some? ==> accepted.value.schema == header.value.schema, Invalid),
     Guard(accepted.Some? ==> RuntimeInstall.IsDigest(accepted.value.sha256), Invalid),
     Guard(accepted.Some? && header.Some? ==> accepted.value.sequence <= header.value.sequence, SequenceRollback),
     Guard(accepted.Some? && header.Some? && accepted.value.sequence == header.value.sequence ==>
             hash(bytes) == accepted.value.sha256, SequenceHashMismatch)]
  }

  lemma ValidateAnswers(bytes: Bytes, accepted: Option<Accepted>, parse: Parser, hash: Bytes -> string)
    ensures Answers(DocumentGuards(bytes, accepted, parse, hash), Validate(bytes, accepted, parse, hash))
    ensures Validate(bytes, accepted, parse, hash).Ok? ==>
      parse(bytes) == Some(Validate(bytes, accepted, parse, hash).value)
  {
    var guards := DocumentGuards(bytes, accepted, parse, hash);
    assert guards[0].error == guards[1].error == guards[2].error == Invalid;
    assert guards[3].error == SequenceRollback && guards[4].error == SequenceHashMismatch;
  }

  /** The reply that is looked at, and the checks of a check for updates in their order. */
  ghost function UpdateGuards(
    files: Files, v2: Option<Bytes>, v1: Option<Bytes>, parse: Parser, hash: Bytes -> string): seq<Guard<Error>>
  {
    var reply, schema := if v2.Some? then v2 else v1, if v2.Some? then 2 else 1;
    var bytes := if reply.Some? then reply.value else [];
    [Guard(AcceptedFile in files ==> files[AcceptedFile].Note?, Unreadable),
     Guard(v2.Some? || AcceptedOf(files, 2) == None, Unavailable),
     Guard(reply.Some?, Unavailable),
     Guard(Validate(bytes, AcceptedOf(files, schema), parse, hash).Ok?,
           var validated := Validate(bytes, AcceptedOf(files, schema), parse, hash);
           if validated.Err? then validated.error else Invalid),
     Guard(parse(bytes).Some? ==> parse(bytes).value.schema == schema, WrongSchema)]
  }

  lemma UpdateAnswers(
    files: Files, v2: Option<Bytes>, v1: Option<Bytes>, parse: Parser, hash: Bytes -> string)
    ensures Answers(UpdateGuards(files, v2, v1, parse, hash), Decide(files, v2, v1, parse, hash))
  {
    var guards := UpdateGuards(files, v2, v1, parse, hash);
    assert OfSchema(Some(Accepted(1, 0, "")), 2).None?;
    assert guards[0].error == Unreadable && guards[1].error == guards[2].error == Unavailable;
    assert guards[3].holds || guards[3].error in {Invalid, SequenceRollback, SequenceHashMismatch};
    assert guards[4].error == WrongSchema;
  }

  /** The checks of loading without the server. */
  ghost function CachedGuards(files: Files, parse: Parser, hash: Bytes -> string): seq<Guard<Error>> {
    var note := if AcceptedFile in files && files[AcceptedFile].Note? then Some(files[AcceptedFile].accepted) else None;
    var name := CatalogFile(if note.Some? then note.value.schema else 0);
    var bytes := if name in files && files[name].Document? then files[name].bytes else [];
    [Guard(note.Some?, Unreadable),
     Guard(note.Some? ==> note.value.schema in {1, 2}, Invalid),
     Guard(name in files && files[name].Document?, Unreadable),
     Guard(Validate(bytes, note, parse, hash).Ok?,
           var validated := Validate(bytes, note, parse, hash);
           if validated.Err? then validated.error else Invalid)]
  }

  lemma CachedAnswers(files: Files, parse: Parser, hash: Bytes -> string)
    ensures Answers(CachedGuards(files, parse, hash), Cached(files, parse, hash))
  {
    var guards := CachedGuards(files, parse, hash);
    assert guards[0].error == guards[2].error == Unreadable && guards[1].error == Invalid;
    assert guards[3].holds || guards[3].error in {Invalid, SequenceRollback, SequenceHashMismatch};
  }

  /** What a crash after each of the four changes leaves. */
  lemma CrashPoints(files: Files, u: Update, hash: Bytes -> string)
    ensures var document, note := CatalogFile(u.header.schema),
                                  Accepted(u.header.schema, u.header.sequence, hash(u.bytes));
      && Persisted(files, u, hash, 0) == files
      && Persisted(files, u, hash, 1) == files - {document}
      && Persisted(files, u, hash, 2) == files[document := Document(u.bytes)]
      && Persisted(files, u, hash, 3) == files[document := Document(u.bytes)] - {AcceptedFile}
      && Persisted(files, u, hash, 4) == files[document := Document(u.bytes)][AcceptedFile := Note(note)]
  {
    var document := CatalogFile(u.header.schema);
    assert (files - {document})[document := Document(u.bytes)] == files[document := Document(u.bytes)];
    var with := files[document := Document(u.bytes)];
    assert (with - {AcceptedFile})[AcceptedFile := Note(Noted(u, hash))] == with[AcceptedFile := Note(Noted(u, hash))];
  }
}

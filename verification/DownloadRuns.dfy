/** Any number of download attempts, one after the other. */
module DownloadRuns {
  import opened Wrappers
  import opened Text
  import opened PackageFiles
  import opened ContentRange
  import opened ResumableDownload

  /** One attempt of a run; `quiet` if no step failed and nobody cancelled. */
  datatype Try = Try(reply: Option<Reply>, quiet: bool, outcome: Outcome, after: Disk)

  ghost predicate IsTry(d: Disk, t: Try, release: Release, hash: Bytes -> string)
    requires release.Valid()
  {
    && Possible(d, release, t.reply, hash, t.outcome, t.after)
    && (t.quiet ==> (t.outcome, t.after) == Quiet(d, release, t.reply, hash))
  }

  ghost predicate IsRun(d: Disk, tries: seq<Try>, release: Release, hash: Bytes -> string)
    requires release.Valid()
    decreases |tries|
  {
    tries != [] ==>
      IsTry(d, tries[0], release, hash) && IsRun(tries[0].after, tries[1..], release, hash)
  }

  function Last(d: Disk, tries: seq<Try>): Disk {
    if tries == [] then d else tries[|tries| - 1].after
  }

  // ---- against any server ----

  predicate Fits(partial: Option<Entry>, size: nat) {
    partial.Some? ==> partial.value.File? && |partial.value.bytes| <= size
  }

  predicate NothingOrGenuine(target: Option<Entry>, release: Release, hash: Bytes -> string) {
    target.Some? ==> target.value.File? && Genuine(target.value.bytes, release, hash)
  }

  /** Whatever the server sends and whatever fails: the partial file never outgrows the catalog's
      size, and there is no finished file but one of the catalog's size and digest. */
  lemma {:induction false} AnyServer(d: Disk, tries: seq<Try>, release: Release, hash: Bytes -> string)
    requires release.Valid() && IsRun(d, tries, release, hash)
    requires Fits(d.partial, release.size) && NothingOrGenuine(d.target, release, hash)
    ensures Fits(Last(d, tries).partial, release.size)
    ensures NothingOrGenuine(Last(d, tries).target, release, hash)
    decreases |tries|
  {
    if tries != [] {
      AnyServer(tries[0].after, tries[1..], release, hash);
    }
  }

  /** Condemned bytes are not seen again: what the next attempt leaves on disk, partial or finished,
      is the beginning of what it received itself, from the first byte on. */
  lemma CondemnedStartsOver(
    d: Disk, first: Try, second: Try, release: Release, hash: Bytes -> string)
    requires release.Valid() && IsRun(d, [first, second], release, hash)
    requires first.outcome.Failed? && Condemned(first.outcome.error)
    ensures second.after.partial.Some? || second.outcome.Done? ==>
              var left := if second.outcome.Done? then second.after.target else second.after.partial;
              left.Some? && left.value.File? &&
              (left.value.bytes != [] ==>
                 second.reply.Some? && second.reply.value.status == 200 &&
                 IsPrefix(left.value.bytes, second.reply.value.Body()))
  {
    assert [first, second][1..] == [second];
    assert first.after.partial == None;
    assert IsTry(first.after, second, release, hash) by {
      assert [first, second][1..][0] == second;
    }
  }

  // ---- against an honest server ----

  /** The server answers from the payload: a whole-file reply brings its beginning, a partial reply
      the bytes from the offset its Content-Range names. It may still break off at any point. */
  ghost predicate Honest(reply: Reply, payload: Bytes)
    requires payload != []
  {
    && (reply.status == 200 ==> IsPrefix(reply.Body(), payload))
    && (reply.status == 206 ==>
          exists start: nat ::
            start <= |payload| && reply.contentRange == Some(ByteRange(start, |payload| - 1, |payload|)) &&
            IsPrefix(reply.Body(), payload[start..]))
  }

  predicate HoldsPrefix(partial: Option<Entry>, payload: Bytes) {
    partial.Some? ==> partial.value.File? && IsPrefix(partial.value.bytes, payload)
  }

  lemma PrefixOfRest(payload: Bytes, start: nat, body: Bytes, n: nat)
    requires start <= |payload| && IsPrefix(body, payload[start..]) && n <= |body|
    ensures IsPrefix(payload[..start] + body[..n], payload)
  {
    assert body[..n] == payload[start..][..n] == payload[start..start + n];
    assert payload[..start] + payload[start..start + n] == payload[..start + n];
  }

  /** What one attempt received is a beginning of the payload. */
  lemma ReceivedPrefix(d: Disk, reply: Option<Reply>, release: Release, payload: Bytes, bytes: Bytes)
    requires release.Valid() && |payload| == release.size
    requires HoldsPrefix(d.partial, payload)
    requires reply.Some? ==> Honest(reply.value, payload)
    requires Received(d, release, reply, bytes)
    ensures IsPrefix(bytes, payload)
  {
    var have := Usable(d.partial, release.size);
    if bytes != have {
      var base := Base(have, release.size, reply.value).value;
      var body := reply.value.Body();
      var n: nat :| n <= |body| && bytes == base + body[..n];
      if reply.value.status == 200 {
        assert payload[0..] == payload && payload[..0] == [];
        PrefixOfRest(payload, 0, body, n);
      } else {
        var start: nat :| start <= |payload| &&
                          reply.value.contentRange == Some(ByteRange(start, |payload| - 1, |payload|)) &&
                          IsPrefix(body, payload[start..]);
        ByteRangeInjective(start, |payload| - 1, |have|, |payload| - 1, |payload|);
        PrefixOfRest(payload, start, body, n);
      }
    }
  }

  /** Through interruptions, restarts, refusals, cancellations and failing steps alike, the partial
      file is a beginning of the payload; a finished file is the payload. */
  lemma {:induction false} HonestServer(
    d: Disk, tries: seq<Try>, release: Release, hash: Bytes -> string, payload: Bytes)
    requires release.Valid() && |payload| == release.size
    requires IsRun(d, tries, release, hash)
    requires forall i :: 0 <= i < |tries| && tries[i].reply.Some? ==> Honest(tries[i].reply.value, payload)
    requires HoldsPrefix(d.partial, payload)
    ensures HoldsPrefix(Last(d, tries).partial, payload)
    ensures Last(d, tries).target in {d.target, Some(File(payload))}
    decreases |tries|
  {
    if tries != [] {
      var t := tries[0];
      if t.outcome.Done? {
        ReceivedPrefix(d, t.reply, release, payload, t.after.target.value.bytes);
        assert t.after.target.value.bytes == payload;
      } else if t.after.partial != d.partial && t.after.partial != None {
        ReceivedPrefix(d, t.reply, release, payload, t.after.partial.value.bytes);
      }
      HonestServer(t.after, tries[1..], release, hash, payload);
    }
  }

  /** A reply that brings all that was asked for: the rest from `offset`, or everything. */
  predicate Complete(reply: Reply, payload: Bytes, offset: nat)
    requires payload != []
  {
    && !reply.broken
    && (|| (reply.status == 200 && reply.Body() == payload)
        || (reply.status == 206 && 0 < offset < |payload| &&
            reply.contentRange == Some(ByteRange(offset, |payload| - 1, |payload|)) &&
            reply.Body() == payload[offset..]))
    && (reply.contentLength.Some? ==> reply.contentLength.value == |reply.Body()|)
  }

  /** From a beginning of the payload one complete reply finishes the download. */
  lemma OneAttempt(d: Disk, reply: Reply, release: Release, hash: Bytes -> string, payload: Bytes)
    requires release.Valid() && Genuine(payload, release, hash)
    requires IsPrefix(Usable(d.partial, release.size), payload)
    requires Complete(reply, payload, |Usable(d.partial, release.size)|)
    ensures Quiet(d, release, Some(reply), hash) == (Done, Disk(None, Some(File(payload))))
  {
    var have := Usable(d.partial, release.size);
    if |have| == release.size {
      assert have == payload;
    } else if reply.status == 200 {
      assert [] + reply.Body() == payload;
    } else {
      assert have + payload[|have|..] == payload;
    }
  }

  /** However the files were damaged, one attempt with a complete reply either finishes the download
      with a verified file, or clears the way for the next one, which finishes it. */
  lemma Recovery(
    d: Disk, first: Reply, second: Reply, release: Release, hash: Bytes -> string, payload: Bytes)
    requires release.Valid() && Genuine(payload, release, hash)
    requires Complete(first, payload, |Usable(d.partial, release.size)|)
    requires Complete(second, payload, 0)
    ensures var (outcome, after) := Quiet(d, release, Some(first), hash);
            if outcome.Done? then
              after.target.Some? && after.target.value.File? &&
              Genuine(after.target.value.bytes, release, hash)
            else
              Condemned(outcome.error) &&
              Quiet(after, release, Some(second), hash) == (Done, Disk(None, Some(File(payload))))
  {
    var have := Usable(d.partial, release.size);
    var (outcome, after) := Quiet(d, release, Some(first), hash);
    if outcome.Failed? {
      if |have| != release.size {
        assert Base(have, release.size, first).Some?;
        assert |Base(have, release.size, first).value + first.Body()| == release.size;
      }
      assert after.partial == None;
      OneAttempt(after, second, release, hash, payload);
    }
  }

  // ---- what an undisturbed attempt comes to ----

  /** `have` is the content of a partial file that can be resumed; without one it is empty. */
  predicate Resumes(d: Disk, have: Bytes, size: nat) {
    match d.partial
    case Some(File(bytes)) => if |bytes| <= size then have == bytes else have == []
    case _ => have == []
  }

  /** The reply brings the file from its first byte on. */
  predicate Restarts(reply: Reply) {
    reply.status == 200
  }

  /** The reply brings the rest of a file of which there is a beginning. */
  predicate Continues(reply: Reply, have: Bytes, size: nat)
    requires 0 < size
  {
    && have != [] && reply.status == 206
    && reply.contentRange == Some(ByteRange(|have|, size - 1, size))
  }

  /** What the body is appended to, for a reply that is taken. */
  function Start(reply: Reply, have: Bytes): Bytes {
    if reply.status == 200 then [] else have
  }

  /** The reply is taken, and announces no other length than what is missing. */
  predicate Taken(reply: Reply, have: Bytes, size: nat)
    requires 0 < size
  {
    && (Restarts(reply) || Continues(reply, have, size))
    && (reply.contentLength.Some? ==> reply.contentLength.value + |Start(reply, have)| == size)
  }

  /** Fewer bytes than are missing, whether the connection broke or not: the attempt fails, and what was
      there stays on disk with all that was received behind it. */
  lemma ShortIsKept(d: Disk, have: Bytes, release: Release, reply: Reply, hash: Bytes -> string)
    requires release.Valid() && Resumes(d, have, release.size) && |have| < release.size
    requires Taken(reply, have, release.size) && |Start(reply, have)| + |reply.Body()| < release.size
    ensures Quiet(d, release, Some(reply), hash) ==
            (Failed(if reply.broken then Transport else Incomplete),
             Disk(Some(File(Start(reply, have) + reply.Body())), d.target))
  {
    assert Usable(d.partial, release.size) == have;
    assert |[] + reply.Body()| == |reply.Body()|;
  }

  /** A reply that is not taken costs nothing but an unusable file, unless its announced length contradicts
      the bytes at hand, which are then given up. */
  lemma NotTaken(d: Disk, have: Bytes, release: Release, reply: Option<Reply>, hash: Bytes -> string)
    requires release.Valid() && Resumes(d, have, release.size) && |have| < release.size
    requires reply.Some? ==> !Taken(reply.value, have, release.size)
    ensures var (outcome, after) := Quiet(d, release, reply, hash);
      && after.target == d.target
      && outcome == Failed(
           if reply.None? then Transport
           else if Restarts(reply.value) || Continues(reply.value, have, release.size) then BadLength
           else if have != [] && reply.value.status == 206 then BadRange
           else BadStatus)
      && after.partial ==
         if reply.Some? && Continues(reply.value, have, release.size) then None
         else if d.partial.Some? && d.partial.value.File? && |d.partial.value.bytes| < release.size then d.partial
         else None
  {
    assert Usable(d.partial, release.size) == have;
  }

  /** As many bytes as are missing or more: the download is finished exactly if they are as many, the
      connection did not break, and the digest is right; what is condemned is removed. */
  lemma EnoughIsDecided(d: Disk, have: Bytes, release: Release, reply: Reply, hash: Bytes -> string)
    requires release.Valid() && Resumes(d, have, release.size) && |have| < release.size
    requires Taken(reply, have, release.size) && |Start(reply, have)| + |reply.Body()| >= release.size
    ensures var whole := Start(reply, have) + reply.Body();
      Quiet(d, release, Some(reply), hash) ==
      if |whole| > release.size then (Failed(TooLarge), Disk(None, d.target))
      else if reply.broken then (Failed(Transport), Disk(Some(File(whole)), d.target))
      else if hash(whole) == release.sha256 then (Done, Disk(None, Some(File(whole))))
      else (Failed(Mismatch), Disk(None, d.target))
  {
    assert Usable(d.partial, release.size) == have;
  }

  /** A partial file that is complete is decided without the server. */
  lemma CompleteIsDecided(d: Disk, have: Bytes, release: Release, reply: Option<Reply>, hash: Bytes -> string)
    requires release.Valid() && Resumes(d, have, release.size) && |have| == release.size
    ensures Quiet(d, release, reply, hash) ==
      if hash(have) == release.sha256 then (Done, Disk(None, Some(File(have))))
      else (Failed(Unverified), Disk(None, d.target))
  {
    assert Usable(d.partial, release.size) == have;
  }

  /** A finished file of the catalog's size and digest is used as it is, without the server. */
  lemma FinishedIsUsed(d: Disk, release: Release, reply: Option<Reply>, hash: Bytes -> string, bytes: Bytes)
    requires release.Valid() && d.target == Some(File(bytes))
    requires |bytes| == release.size && hash(bytes) == release.sha256
    ensures QuietDownload(d, release, reply, hash) == (Done, d)
  {
  }

  /** Any other finished file is removed first, whatever becomes of the attempt. */
  lemma UnfitIsRemoved(d: Disk, release: Release, reply: Option<Reply>, hash: Bytes -> string)
    requires release.Valid() && d.target.Some?
    requires d.target.value.NotFile? || |d.target.value.bytes| != release.size ||
             hash(d.target.value.bytes) != release.sha256
    ensures QuietDownload(d, release, reply, hash) == Quiet(Disk(d.partial, None), release, reply, hash)
    ensures QuietDownload(d, release, reply, hash).0.Failed? ==>
      QuietDownload(d, release, reply, hash).1.target == None
  {
  }

  // ---- interruptions ----

  /** Replies of an honest server, one after the other, each to the request for the rest from the byte
      reached, each short of the end. */
  ghost predicate Interrupted(replies: seq<Reply>, reached: nat, payload: Bytes)
    requires payload != []
    decreases |replies|
  {
    replies != [] ==>
      var reply, size := replies[0], |payload|;
      && reply.status == 206 && Honest(reply, payload)
      && 0 < reached && reached + |reply.Body()| < size
      && reply.contentRange == Some(ByteRange(reached, size - 1, size))
      && (reply.contentLength.Some? ==> reply.contentLength.value == size - reached)
      && Interrupted(replies[1..], reached + |reply.Body()|, payload)
  }

  function Bodies(replies: seq<Reply>): nat {
    if replies == [] then 0 else |replies[0].Body()| + Bodies(replies[1..])
  }

  /** The files after undisturbed attempts with these replies. */
  function AfterReplies(d: Disk, replies: seq<Reply>, release: Release, hash: Bytes -> string): Disk
    requires release.Valid()
    decreases |replies|
  {
    if replies == [] then d
    else AfterReplies(Quiet(d, release, Some(replies[0]), hash).1, replies[1..], release, hash)
  }

  lemma HonestRest(reply: Reply, payload: Bytes, reached: nat)
    requires payload != [] && reply.status == 206 && Honest(reply, payload) && reached <= |payload|
    requires reply.contentRange == Some(ByteRange(reached, |payload| - 1, |payload|))
    ensures reached + |reply.Body()| <= |payload| && reply.Body() == payload[reached..reached + |reply.Body()|]
    ensures payload[..reached] + reply.Body() == payload[..reached + |reply.Body()|]
  {
    var start: nat :| start <= |payload| &&
                      reply.contentRange == Some(ByteRange(start, |payload| - 1, |payload|)) &&
                      IsPrefix(reply.Body(), payload[start..]);
    ByteRangeInjective(start, |payload| - 1, reached, |payload| - 1, |payload|);
  }

  /** Nothing is lost to interruptions: after any number of them the partial file has all bytes that ever
      arrived, and one complete reply from there finishes the download with the payload. */
  lemma {:induction false} ResumedAfterBreaks(
    d: Disk, replies: seq<Reply>, release: Release, hash: Bytes -> string, payload: Bytes, reached: nat, last: Reply)
    requires release.Valid() && Genuine(payload, release, hash) && reached <= |payload|
    requires d.partial == Some(File(payload[..reached])) && Interrupted(replies, reached, payload)
    requires Complete(last, payload, reached + Bodies(replies))
    ensures reached + Bodies(replies) <= |payload|
    ensures var after := AfterReplies(d, replies, release, hash);
      && after == Disk(Some(File(payload[..reached + Bodies(replies)])), d.target)
      && Quiet(after, release, Some(last), hash) == (Done, Disk(None, Some(File(payload))))
    decreases |replies|
  {
    if replies == [] {
      OneAttempt(d, last, release, hash, payload);
    } else {
      var reply := replies[0];
      HonestRest(reply, payload, reached);
      ShortIsKept(d, payload[..reached], release, reply, hash);
      var next := Quiet(d, release, Some(reply), hash).1;
      hide Quiet, Honest, Complete, Genuine, IsPrefix;
      ResumedAfterBreaks(next, replies[1..], release, hash, payload, reached + |reply.Body()|, last);
    }
  }
}

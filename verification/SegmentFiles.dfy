/** The loops of the segmented download over its files: finding what an earlier attempt left,
    fetching one segment with retries, putting the segments together. */
module SegmentFiles {
  import opened Wrappers
  import opened Text
  import opened PackageFiles
  import opened ContentRange
  import opened ResumableDownload
  import opened Segments

  const MAX_ATTEMPTS: nat := 4

  class SegmentFiles {
    var parts: Parts
    ghost var faults: nat

    constructor (parts: Parts)
      ensures this.parts == parts && faults == 0
    {
      this.parts, faults := parts, 0;
    }

    method Visit() returns (ok: bool)
      modifies this`faults
      ensures faults == old(faults) + if ok then 0 else 1
    {
      ok := *;
      if !ok {
        faults := faults + 1;
      }
    }

    method Remove(i: nat) returns (ok: bool)
      modifies this
      ensures parts == if ok then old(parts) - {i} else old(parts)
      ensures faults == old(faults) + if ok then 0 else 1
    {
      ok := *;
      ok := ok || i !in parts;
      if ok {
        parts := parts - {i};
      } else {
        faults := faults + 1;
      }
    }

    method Create(i: nat) returns (ok: bool)
      modifies this
      ensures parts == if ok then old(parts)[i := File([])] else old(parts)
      ensures faults == old(faults) + if ok then 0 else 1
    {
      ok := *;
      if ok {
        parts := parts[i := File([])];
      } else {
        faults := faults + 1;
      }
    }

    /** A failure can leave any beginning of the piece written. */
    method Append(i: nat, piece: Bytes) returns (ok: bool, ghost written: nat)
      requires i in parts && parts[i].File?
      modifies this
      ensures written <= |piece| && (ok ==> written == |piece|)
      ensures parts == old(parts)[i := File(old(parts)[i].bytes + piece[..written])]
      ensures faults == old(faults) + if ok then 0 else 1
    {
      ok := *;
      var n: int := *;
      n := if ok || !(0 <= n <= |piece|) then |piece| else n;
      written := n;
      if !ok {
        faults := faults + 1;
      }
      parts := parts[i := File(parts[i].bytes + piece[..n])];
    }
  }

  // ---- what an earlier attempt left ----

  /** The files without those of the first `n` segments that are not complete. */
  function Scanned(parts: Parts, segments: seq<Segment>, n: nat): Parts
    requires n <= |segments|
  {
    map i | i in parts && (i < n ==> IsComplete(parts, segments, i)) :: parts[i]
  }

  function Resumed(parts: Parts, segments: seq<Segment>, n: nat): int
    requires n <= |segments|
  {
    if n == 0 then
      0
    else
      Resumed(parts, segments, n - 1) +
      if IsComplete(parts, segments, n - 1) then segments[n - 1].Length() else 0
  }

  /** The segments among the first `n` that have to be fetched, in order. */
  function Missing(parts: Parts, segments: seq<Segment>, n: nat): seq<nat>
    requires n <= |segments|
  {
    if n == 0 then
      []
    else
      Missing(parts, segments, n - 1) + if IsComplete(parts, segments, n - 1) then [] else [n - 1]
  }

  lemma {:induction false} MissingAre(parts: Parts, segments: seq<Segment>, n: nat, i: nat)
    requires n <= |segments|
    ensures i in Missing(parts, segments, n) <==> i < n && !IsComplete(parts, segments, i)
  {
    if n > 0 {
      MissingAre(parts, segments, n - 1, i);
    }
  }

  /** Complete files stay and count; everything else goes and is to be fetched again. */
  method Scan(files: SegmentFiles, segments: seq<Segment>)
    returns (ok: bool, resumed: int, pending: seq<nat>)
    modifies files
    ensures ok <==> files.faults == old(files.faults)
    ensures ok ==> resumed == Resumed(old(files.parts), segments, |segments|)
    ensures ok ==> pending == Missing(old(files.parts), segments, |segments|)
    ensures ok ==> files.parts == Scanned(old(files.parts), segments, |segments|)
    ensures files.parts.Items <= old(files.parts).Items
  {
    resumed, pending, ok := 0, [], true;
    ghost var parts := files.parts;
    var i: nat := 0;
    while i < |segments|
      invariant i <= |segments| && ok && files.faults == old(files.faults)
      invariant resumed == Resumed(parts, segments, i)
      invariant pending == Missing(parts, segments, i)
      invariant files.parts == Scanned(parts, segments, i)
    {
      ok := files.Visit();
      if !ok {
        return;
      }
      if i in files.parts {
        if files.parts[i].File? && |files.parts[i].bytes| == segments[i].Length() {
          resumed := resumed + segments[i].Length();
        } else {
          ok := files.Remove(i);
          if !ok {
            return;
          }
          pending := pending + [i];
        }
      } else {
        pending := pending + [i];
      }
      i := i + 1;
    }
  }

  // ---- one segment ----

  /** A reply with the range that was asked for and nothing else. */
  predicate Accepts(reply: Reply, segment: Segment, size: nat) {
    && reply.status == 206
    && reply.contentRange == Some(ByteRange(segment.start, segment.end, size))
    && (reply.contentLength.Some? ==> reply.contentLength.value == segment.Length())
  }

  predicate Delivers(reply: Option<Reply>, segment: Segment, size: nat) {
    && reply.Some? && Accepts(reply.value, segment, size)
    && !reply.value.broken && |reply.value.Body()| == segment.Length()
  }

  /** One reply settles a segment exactly if it is complete, for the range that was asked for, and says
      nothing else about its length. */
  lemma DeliversExactly(reply: Reply, segment: Segment, size: nat)
    requires segment.start <= segment.end
    ensures Delivers(Some(reply), segment, size) <==>
      && reply.status == 206 && !reply.broken
      && reply.contentRange == Some(ByteRange(segment.start, segment.end, size))
      && segment.start + |reply.Body()| == segment.end + 1
      && reply.contentLength in {None, Some(|reply.Body()|)}
  {
  }

  /** The file of segment `i` holds a beginning of the body, within the segment. */
  ghost predicate Fetched(parts: Parts, i: nat, reply: Reply, segment: Segment) {
    && i in parts && parts[i].File? && |parts[i].bytes| <= segment.Length()
    && IsPrefix(parts[i].bytes, reply.Body())
  }

  /** `count` bytes, the first `k` pieces of the body, are on disk. */
  predicate InStep(files: SegmentFiles, i: nat, reply: Reply, k: nat, count: nat)
    reads files
  {
    && k <= |reply.pieces| && count == |Flatten(reply.pieces[..k])|
    && i in files.parts && files.parts[i] == File(Flatten(reply.pieces[..k]))
  }

  /** One turn of the receive loop. */
  method TakePiece(
    files: SegmentFiles, flag: CancelFlag, i: nat, segment: Segment, reply: Reply, k: nat, count: nat)
    returns (ok: bool, count': nat)
    requires segment.start <= segment.end && count <= segment.Length()
    requires k < |reply.pieces| && InStep(files, i, reply, k, count)
    modifies files, flag
    ensures old(flag.requested) ==> flag.requested
    ensures old(files.faults) <= files.faults
    ensures files.parts - {i} == old(files.parts) - {i}
    ensures Fetched(files.parts, i, reply, segment)
    ensures ok ==>
              InStep(files, i, reply, k + 1, count') && count' <= segment.Length() &&
              files.faults == old(files.faults)
    ensures !ok && files.faults == old(files.faults) && !flag.requested ==>
              |reply.Body()| > segment.Length()
  {
    count' := count;
    ghost var before := Flatten(reply.pieces[..k]);
    NextPiece(reply, k);
    PartOfPiece(reply, k, 0);
    assert before + reply.pieces[k][..0] == before;
    var cancelled := flag.Poll();
    if cancelled {
      return false, count;
    }
    var piece := reply.pieces[k];
    count' := count + |piece|;
    if count' > segment.Length() {
      return false, count';
    }
    ghost var written;
    ok, written := files.Append(i, piece);
    PartOfPiece(reply, k, written);
    assert piece[..|piece|] == piece;
  }

  /** One attempt at one segment. */
  method DownloadSegmentOnce(
    files: SegmentFiles, flag: CancelFlag, i: nat, segment: Segment, size: nat, reply: Option<Reply>)
    returns (ok: bool)
    requires segment.start <= segment.end
    modifies files, flag
    ensures old(flag.requested) ==> flag.requested
    ensures old(files.faults) <= files.faults
    ensures files.parts - {i} == old(files.parts) - {i}
    ensures ok ==> Delivers(reply, segment, size) && i in files.parts && files.parts[i] == File(reply.value.Body())
    ensures !ok ==>
              || files.parts == old(files.parts)
              || (reply.Some? && Accepts(reply.value, segment, size) &&
                  Fetched(files.parts, i, reply.value, segment))
    ensures files.faults == old(files.faults) && !flag.requested ==> (ok <==> Delivers(reply, segment, size))
  {
    if reply == None {
      return false;
    }
    var r := reply.value;
    if r.status != 206 || r.contentRange != Some(ByteRange(segment.start, segment.end, size)) {
      return false;
    }
    if r.contentLength.Some? && r.contentLength.value != segment.Length() {
      return false;
    }
    ok := files.Create(i);
    if !ok {
      return;
    }
    var count: nat, k: nat := 0, 0;
    while k < |r.pieces|
      invariant InStep(files, i, r, k, count) && count <= segment.Length()
      invariant Fetched(files.parts, i, r, segment)
      invariant files.parts - {i} == old(files.parts) - {i}
      invariant files.faults == old(files.faults)
      invariant old(flag.requested) ==> flag.requested
    {
      ok, count := TakePiece(files, flag, i, segment, r, k, count);
      if !ok {
        return;
      }
      k := k + 1;
    }
    assert r.pieces[..k] == r.pieces;
    if r.broken {
      return false;
    }
    ok := files.Visit();
    if !ok {
      return;
    }
    ok := count == segment.Length();
  }

  /** Up to four attempts; what a failed one left is removed. The segment's file is complete with the
      body of the first reply that delivers, or gone. */
  method DownloadSegment(
    files: SegmentFiles, flag: CancelFlag, i: nat, segment: Segment, size: nat, replies: seq<Option<Reply>>)
    returns (ok: bool, ghost served: nat)
    requires segment.start <= segment.end && |replies| == MAX_ATTEMPTS
    modifies files, flag
    ensures old(flag.requested) ==> flag.requested
    ensures old(files.faults) <= files.faults
    ensures files.parts - {i} == old(files.parts) - {i}
    ensures ok ==>
              served < MAX_ATTEMPTS && Delivers(replies[served], segment, size) &&
              i in files.parts && files.parts[i] == File(replies[served].value.Body())
    ensures files.faults == old(files.faults) && !flag.requested ==>
              (ok <==> exists a :: 0 <= a < MAX_ATTEMPTS && Delivers(replies[a], segment, size))
    ensures files.faults == old(files.faults) && !flag.requested && ok ==>
              forall a :: 0 <= a < served ==> !Delivers(replies[a], segment, size)
    ensures !ok && files.faults == old(files.faults) ==> i !in files.parts
  {
    served := 0;
    var attempt: nat := 0;
    while attempt < MAX_ATTEMPTS
      invariant attempt <= MAX_ATTEMPTS && old(files.faults) <= files.faults
      invariant old(flag.requested) ==> flag.requested
      invariant files.parts - {i} == old(files.parts) - {i}
      invariant files.faults == old(files.faults) && !flag.requested ==>
                  forall a :: 0 <= a < attempt ==> !Delivers(replies[a], segment, size)
      invariant attempt > 0 ==> i !in files.parts
    {
      var cancelled := flag.Poll();
      if cancelled {
        var removed := files.Remove(i);
        return false, served;
      }
      served := attempt;
      ok := DownloadSegmentOnce(files, flag, i, segment, size, replies[attempt]);
      if ok {
        return;
      }
      var removed := files.Remove(i);
      if !removed {
        return;
      }
      attempt := attempt + 1;
    }
    ok := false;
  }

  // ---- the whole package ----

  /** Every segment file in turn, a buffer at a time, into one file and one hasher. */
  method CombineAndHash(files: SegmentFiles, segments: seq<Segment>)
    returns (ok: bool, combined: Bytes, hashed: Bytes)
    modifies files`faults
    ensures ok ==>
              files.faults == old(files.faults) &&
              combined == hashed == Combined(files.parts, |segments|)
    ensures ok ==> forall i :: 0 <= i < |segments| ==> i in files.parts && files.parts[i].File?
    ensures files.faults == old(files.faults) ==>
              (ok <==> forall i :: 0 <= i < |segments| ==> i in files.parts && files.parts[i].File?)
  {
    combined, hashed := [], [];
    ok := files.Visit();
    var i: nat := 0;
    while ok && i < |segments|
      invariant i <= |segments|
      invariant ok ==> files.faults == old(files.faults)
      invariant ok ==> combined == hashed == Combined(files.parts, i)
      invariant ok ==> forall k :: 0 <= k < i ==> k in files.parts && files.parts[k].File?
      invariant !ok && files.faults == old(files.faults) ==>
                  exists k :: 0 <= k < |segments| && !(k in files.parts && files.parts[k].File?)
    {
      if i !in files.parts || !files.parts[i].File? {
        ok := false;
      } else {
        ok := files.Visit();
        if ok {
          var bytes := HashFile(files.parts[i].bytes);
          combined, hashed := combined + bytes, hashed + bytes;
          i := i + 1;
        }
      }
    }
  }

  /** Removes every segment file it can. */
  method Cleanup(files: SegmentFiles, segments: seq<Segment>)
    modifies files
    ensures files.parts.Items <= old(files.parts).Items
    ensures old(files.faults) <= files.faults
    ensures files.faults == old(files.faults) ==>
              files.parts == map i | i in old(files.parts) && i >= |segments| :: old(files.parts)[i]
  {
    var i: nat := 0;
    while i < |segments|
      invariant i <= |segments| && old(files.faults) <= files.faults
      invariant files.parts.Items <= old(files.parts).Items
      invariant files.faults == old(files.faults) ==>
                  files.parts == map k | k in old(files.parts) && k >= i :: old(files.parts)[k]
    {
      var removed := files.Remove(i);
      i := i + 1;
    }
  }
}

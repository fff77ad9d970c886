/** The division of a package into segments that are downloaded side by side. */
module Segments {
  import opened Wrappers
  import opened Text
  import opened PackageFiles

  /** The bytes from `start` to `end`, both included. */
  datatype Segment = Segment(start: nat, end: nat) {
    function Length(): int { end - start + 1 }
  }

  function SaturatingAdd(a: nat, b: nat): nat {
    if a + b > MAX_U64 then MAX_U64 else a + b
  }

  /** Non-empty segments of at most `segmentSize` bytes, all but the last full, one after the other
      from the first byte up to `upTo`. */
  predicate Row(segments: seq<Segment>, upTo: nat, segmentSize: nat) {
    && (forall i :: 0 <= i < |segments| ==> 1 <= segments[i].Length() <= segmentSize)
    && (forall i, j :: 0 <= i < |segments| && j == i + 1 && j < |segments| ==>
                         segments[j].start == segments[i].end + 1 && segments[i].Length() == segmentSize)
    && if segments == [] then
         upTo == 0
       else
         segments[0].start == 0 && segments[|segments| - 1].end + 1 == upTo
  }

  predicate Tiles(segments: seq<Segment>, size: nat, segmentSize: nat) {
    segments != [] && Row(segments, size, segmentSize)
  }

  lemma Extended(segments: seq<Segment>, upTo: nat, segmentSize: nat, next: Segment)
    requires Row(segments, upTo, segmentSize)
    requires segments != [] ==> segments[|segments| - 1].Length() == segmentSize
    requires next.start == upTo && 1 <= next.Length() <= segmentSize
    ensures Row(segments + [next], next.end + 1, segmentSize)
  {
    var n, longer := |segments|, segments + [next];
    forall i, j | 0 <= i < n + 1 && j == i + 1 && j < n + 1
      ensures longer[j].start == longer[i].end + 1 && longer[i].Length() == segmentSize
    {
      assert longer[i] == segments[i];
      assert longer[j] == if j < n then segments[j] else next;
    }
  }

  /** In 64-bit arithmetic: the one addition that could overflow saturates. */
  method BuildSegments(size: nat, segmentSize: nat) returns (segments: seq<Segment>)
    requires 0 < size <= MAX_U64 && 0 < segmentSize <= MAX_U64
    ensures Tiles(segments, size, segmentSize)
  {
    segments := [];
    var start: nat := 0;
    assert Row(segments, start, segmentSize);
    hide Row;
    while start < size
      invariant start <= size && Row(segments, start, segmentSize)
      invariant segments == [] <==> start == 0
      invariant segments != [] && start < size ==> segments[|segments| - 1].Length() == segmentSize
    {
      var sum := SaturatingAdd(start, segmentSize - 1);
      var end: nat := if sum < size - 1 then sum else size - 1;
      Extended(segments, start, segmentSize, Segment(start, end));
      segments := segments + [Segment(start, end)];
      assert end + 1 <= MAX_U64;
      start := end + 1;
    }
  }

  /** Later segments lie behind earlier ones. */
  lemma {:induction false} Ordered(segments: seq<Segment>, size: nat, segmentSize: nat, i: nat, j: nat)
    requires Tiles(segments, size, segmentSize) && i < j < |segments|
    ensures segments[i].end < segments[j].start
  {
    assert segments[j].start == segments[j - 1].end + 1;
    if i + 1 < j {
      Ordered(segments, size, segmentSize, i, j - 1);
    }
  }

  lemma {:induction false} Covering(segments: seq<Segment>, size: nat, segmentSize: nat, offset: nat, i: nat)
    requires Tiles(segments, size, segmentSize) && offset < size
    requires i < |segments| && segments[i].start <= offset
    ensures exists k :: i <= k < |segments| && segments[k].start <= offset <= segments[k].end
    decreases |segments| - i
  {
    if offset > segments[i].end {
      assert i + 1 < |segments| && segments[i + 1].start == segments[i].end + 1;
      Covering(segments, size, segmentSize, offset, i + 1);
    }
  }

  /** Every byte belongs to exactly one segment. */
  lemma Partition(segments: seq<Segment>, size: nat, segmentSize: nat, offset: nat)
    requires Tiles(segments, size, segmentSize) && offset < size
    ensures exists k :: 0 <= k < |segments| && segments[k].start <= offset <= segments[k].end
    ensures forall i, j | 0 <= i < j < |segments| && segments[i].start <= offset <= segments[i].end ::
              offset < segments[j].start
  {
    Covering(segments, size, segmentSize, offset, 0);
    forall i, j | 0 <= i < j < |segments|
      ensures segments[i].end < segments[j].start
    {
      Ordered(segments, size, segmentSize, i, j);
    }
  }

  /** Where the segments lie, and how many there are: the division is determined. */
  lemma {:induction false} ClosedForm(segments: seq<Segment>, size: nat, segmentSize: nat, i: nat)
    requires Tiles(segments, size, segmentSize) && i < |segments|
    ensures segments[i].start == i * segmentSize
    ensures segments[i].end + 1 == if i + 1 == |segments| then size else (i + 1) * segmentSize
    ensures i + 1 == |segments| ==> i * segmentSize < size <= (i + 1) * segmentSize
  {
    assert (i + 1) * segmentSize == i * segmentSize + segmentSize;
    if i > 0 {
      ClosedForm(segments, size, segmentSize, i - 1);
      assert segments[i].start == segments[i - 1].end + 1;
    } else {
      assert i * segmentSize == 0;
    }
    if i + 1 < |segments| {
      assert segments[i + 1].start == segments[i].end + 1 && segments[i].Length() == segmentSize;
    }
  }

  function Total(segments: seq<Segment>, n: nat): int
    requires n <= |segments|
  {
    if n == 0 then 0 else Total(segments, n - 1) + segments[n - 1].Length()
  }

  lemma {:induction false} TotalIs(segments: seq<Segment>, size: nat, segmentSize: nat, n: nat)
    requires Tiles(segments, size, segmentSize) && n <= |segments|
    ensures Total(segments, n) == if n == 0 then 0 else segments[n - 1].end + 1
  {
    if n > 0 {
      TotalIs(segments, size, segmentSize, n - 1);
    }
  }

  // ---- the segment files ----

  type Parts = map<nat, Entry>

  predicate IsComplete(parts: Parts, segments: seq<Segment>, i: nat)
    requires i < |segments|
  {
    i in parts && parts[i].File? && |parts[i].bytes| == segments[i].Length()
  }

  /** What the first `n` files contribute to the package. */
  function Combined(parts: Parts, n: nat): Bytes {
    if n == 0 then
      []
    else
      Combined(parts, n - 1) + if n - 1 in parts && parts[n - 1].File? then parts[n - 1].bytes else []
  }

  /** The bytes of one segment of the payload. */
  function Slice(payload: Bytes, segment: Segment): Bytes
    requires segment.start <= segment.end < |payload|
  {
    payload[segment.start..segment.end + 1]
  }

  predicate HoldsSlice(parts: Parts, segments: seq<Segment>, payload: Bytes, i: nat) {
    && i < |segments| && segments[i].start <= segments[i].end < |payload|
    && i in parts && parts[i] == File(Slice(payload, segments[i]))
  }

  lemma {:induction false} CombinedSize(parts: Parts, segments: seq<Segment>, n: nat)
    requires n <= |segments| && forall i :: 0 <= i < n ==> IsComplete(parts, segments, i)
    ensures |Combined(parts, n)| == Total(segments, n)
  {
    if n > 0 {
      CombinedSize(parts, segments, n - 1);
      assert IsComplete(parts, segments, n - 1);
    }
  }

  /** Segment files that hold their slices make up the payload. */
  lemma {:induction false} CombinedPayload(
    parts: Parts, segments: seq<Segment>, segmentSize: nat, payload: Bytes, n: nat)
    requires Tiles(segments, |payload|, segmentSize) && n <= |segments|
    requires forall i :: 0 <= i < n ==> HoldsSlice(parts, segments, payload, i)
    ensures 0 <= Total(segments, n) <= |payload|
    ensures Combined(parts, n) == payload[..Total(segments, n)]
  {
    TotalIs(segments, |payload|, segmentSize, n);
    if n > 0 {
      TotalIs(segments, |payload|, segmentSize, n - 1);
      CombinedPayload(parts, segments, segmentSize, payload, n - 1);
      var a, b := segments[n - 1].start, segments[n - 1].end + 1;
      assert HoldsSlice(parts, segments, payload, n - 1);
      assert Total(segments, n - 1) == a by {
        if n > 1 {
          assert segments[n - 1].start == segments[n - 2].end + 1;
        }
      }
      NextSlice(payload, a, b);
    }
  }

  lemma NextSlice(payload: Bytes, a: nat, b: nat)
    requires a <= b <= |payload|
    ensures payload[..a] + payload[a..b] == payload[..b]
  {
  }

  lemma WithinSize(segments: seq<Segment>, size: nat, segmentSize: nat)
    requires Tiles(segments, size, segmentSize)
    ensures forall i :: 0 <= i < |segments| ==> segments[i].start <= segments[i].end < size
  {
    forall i | 0 <= i < |segments|
      ensures segments[i].end < size
    {
      if i + 1 < |segments| {
        Ordered(segments, size, segmentSize, i, |segments| - 1);
      }
    }
  }
}

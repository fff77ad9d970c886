/** The segmented download as a whole: sessions that scan, fetch up to four segments at a time in any
    interleaving, count them in any order and put them together; between sessions the process may
    stop anywhere. `payload` says what the server serves: any bytes, or those of one payload. */
module SegmentedRuns {
  import opened Wrappers
  import opened Text
  import opened PackageFiles
  import opened ContentRange
  import opened ResumableDownload
  import opened Segments
  import opened SegmentFiles

  const MAX_PARALLEL: nat := 4

  /** `Active` fetches its segment for the `attempt`th time; `Ready` is fetched and not yet counted. */
  datatype Phase =
    | Found
    | Waiting
    | Active(attempt: nat, open: bool)
    | Ready
    | Counted
    | GaveUp

  /** `phases` is empty between sessions; `reports` are the progress reports of the session. */
  datatype State = State(
    parts: Parts, phases: seq<Phase>, downloaded: int, reports: seq<int>, target: Option<Bytes>)

  datatype Event =
    | Begin
    | Start(i: nat)
    | Open(i: nat)
    | Receive(i: nat, piece: Bytes)
    | Fail(i: nat)
    | Complete(i: nat)
    | Count(i: nat)
    | Stop
    | Cancel
    | Lose(i: nat)
    | Conclude

  /** The package: how it is divided, its digest, and what the server serves. */
  datatype Package = Package(
    segments: seq<Segment>, size: nat, segmentSize: nat, sha256: string, hash: Bytes -> string,
    payload: Option<Bytes>)
  {
    predicate Valid() {
      Tiles(segments, size, segmentSize) && (payload.Some? ==> |payload.value| == size)
    }

    /** What a server may have sent of segment `i`. */
    predicate MayHold(i: nat, bytes: Bytes)
      requires i < |segments|
    {
      payload.Some? ==>
        && segments[i].start <= segments[i].end < |payload.value|
        && IsPrefix(bytes, Slice(payload.value, segments[i]))
    }
  }

  predicate Fetching(p: Phase) {
    p.Active? || p.Ready? || p.GaveUp?
  }

  function InFlight(phases: seq<Phase>): set<nat> {
    set i | 0 <= i < |phases| && Fetching(phases[i])
  }

  predicate Settled(p: Phase) {
    p.Found? || p.Counted?
  }

  function Phases(parts: Parts, segments: seq<Segment>): seq<Phase> {
    seq(|segments|, i requires 0 <= i < |segments| => if IsComplete(parts, segments, i) then Found else Waiting)
  }

  // ---- the steps ----

  predicate Enabled(p: Package, s: State, e: Event)
    requires p.Valid()
  {
    var n := |s.phases|;
    match e
    case Begin => s.phases == []
    case Start(i) =>
      i < n && s.phases[i].Waiting? && |InFlight(s.phases)| < MAX_PARALLEL &&
      forall j :: 0 <= j < i ==> !s.phases[j].Waiting?
    case Open(i) => i < n && s.phases[i].Active? && !s.phases[i].open
    case Receive(i, piece) =>
      i < n && i < |p.segments| && s.phases[i].Active? && s.phases[i].open &&
      i in s.parts && s.parts[i].File? &&
      |s.parts[i].bytes + piece| <= p.segments[i].Length() && p.MayHold(i, s.parts[i].bytes + piece)
    case Fail(i) => i < n && s.phases[i].Active?
    case Complete(i) =>
      i < n && i < |p.segments| && s.phases[i].Active? && s.phases[i].open &&
      IsComplete(s.parts, p.segments, i)
    case Count(i) => i < n && s.phases[i].Ready?
    case Stop => n > 0
    case Cancel => n > 0
    case Lose(i) => n == 0
    case Conclude => n > 0 && forall i :: 0 <= i < n ==> Settled(s.phases[i])
  }

  /** The end of a session: nothing is left but the files. */
  function Ended(s: State): State {
    s.(phases := [], downloaded := 0, reports := [])
  }

  function Step(p: Package, s: State, e: Event): State
    requires p.Valid() && Enabled(p, s, e)
  {
    match e
    case Begin =>
      var resumed := Resumed(s.parts, p.segments, |p.segments|);
      State(
        Scanned(s.parts, p.segments, |p.segments|), Phases(s.parts, p.segments), resumed, [resumed],
        s.target)
    case Start(i) => s.(phases := s.phases[i := Active(0, false)])
    case Open(i) =>
      s.(parts := s.parts[i := File([])], phases := s.phases[i := s.phases[i].(open := true)])
    case Receive(i, piece) => s.(parts := s.parts[i := File(s.parts[i].bytes + piece)])
    case Fail(i) =>
      var attempt := s.phases[i].attempt + 1;
      s.(parts := s.parts - {i},
         phases := s.phases[i := if attempt < MAX_ATTEMPTS then Active(attempt, false) else GaveUp])
    case Complete(i) => s.(phases := s.phases[i := Ready])
    case Count(i) =>
      var downloaded := s.downloaded + if i < |p.segments| then p.segments[i].Length() else 0;
      s.(phases := s.phases[i := Counted], downloaded := downloaded, reports := s.reports + [downloaded])
    case Stop => Ended(s)
    case Cancel => Ended(s.(parts := map[]))
    case Lose(i) => s.(parts := s.parts - {i})
    case Conclude =>
      var combined := Combined(s.parts, |p.segments|);
      Ended(s.(
        parts := map[],
        target := if p.hash(combined) == p.sha256 then Some(combined) else s.target))
  }

  ghost predicate IsRun(p: Package, s: State, events: seq<Event>)
    requires p.Valid()
    decreases |events|
  {
    events != [] ==> Enabled(p, s, events[0]) && IsRun(p, Step(p, s, events[0]), events[1..])
  }

  ghost function After(p: Package, s: State, events: seq<Event>): State
    requires p.Valid() && IsRun(p, s, events)
    decreases |events|
  {
    if events == [] then s else After(p, Step(p, s, events[0]), events[1..])
  }

  // ---- what every step keeps ----

  /** The bytes of the settled segments among the first `n`. */
  function SettledBytes(phases: seq<Phase>, segments: seq<Segment>, n: nat): int
    requires n <= |phases| && n <= |segments|
  {
    if n == 0 then
      0
    else
      SettledBytes(phases, segments, n - 1) + if Settled(phases[n - 1]) then segments[n - 1].Length() else 0
  }

  lemma {:induction false} SettledUpdate(
    phases: seq<Phase>, segments: seq<Segment>, i: nat, phase: Phase, n: nat)
    requires i < |phases| == |segments| && n <= |phases|
    ensures SettledBytes(phases[i := phase], segments, n) ==
            SettledBytes(phases, segments, n) +
            if i < n && Settled(phase) && !Settled(phases[i]) then segments[i].Length()
            else if i < n && !Settled(phase) && Settled(phases[i]) then -segments[i].Length()
            else 0
  {
    if n > 0 {
      SettledUpdate(phases, segments, i, phase, n - 1);
    }
  }

  lemma {:induction false} SettledBound(
    phases: seq<Phase>, segments: seq<Segment>, size: nat, segmentSize: nat, n: nat)
    requires |phases| == |segments| && n <= |phases| && Tiles(segments, size, segmentSize)
    ensures 0 <= SettledBytes(phases, segments, n) <= Total(segments, n)
    ensures (forall i :: 0 <= i < n ==> Settled(phases[i])) ==>
              SettledBytes(phases, segments, n) == Total(segments, n)
  {
    if n > 0 {
      SettledBound(phases, segments, size, segmentSize, n - 1);
    }
  }

  /** Found and finished segments have complete files, active ones a part, all others none. */
  predicate FileMatches(p: Package, s: State, i: nat)
    requires i < |p.segments| && i < |s.phases|
  {
    match s.phases[i]
    case Active(attempt, open) =>
      attempt < MAX_ATTEMPTS &&
      if open then
        i in s.parts && s.parts[i].File? && |s.parts[i].bytes| <= p.segments[i].Length()
      else
        i !in s.parts
    case Waiting => i !in s.parts
    case GaveUp => i !in s.parts
    case _ => IsComplete(s.parts, p.segments, i)
  }

  predicate Growing(reports: seq<int>) {
    forall i, j :: 0 <= i < j < |reports| ==> reports[i] <= reports[j]
  }

  ghost predicate FilesServed(p: Package, s: State)
    requires p.Valid()
  {
    forall i :: i in s.parts && i < |p.segments| && s.parts[i].File? ==> p.MayHold(i, s.parts[i].bytes)
  }

  predicate TargetGood(p: Package, target: Option<Bytes>) {
    target.Some? ==>
      |target.value| == p.size && p.hash(target.value) == p.sha256 &&
      (p.payload.Some? ==> target == p.payload)
  }

  ghost predicate Session(p: Package, s: State)
    requires p.Valid()
  {
    && |s.phases| == |p.segments|
    && (forall i :: 0 <= i < |s.phases| ==> FileMatches(p, s, i))
    && |InFlight(s.phases)| <= MAX_PARALLEL
    && s.downloaded == SettledBytes(s.phases, p.segments, |p.segments|)
    && s.reports != [] && s.reports[|s.reports| - 1] == s.downloaded
    && Growing(s.reports)
  }

  ghost predicate Inv(p: Package, s: State)
    requires p.Valid()
  {
    && FilesServed(p, s) && TargetGood(p, s.target)
    && (s.phases != [] ==> Session(p, s))
  }

  /** A phase change that neither settles a segment nor starts one. */
  lemma Rephased(p: Package, s: State, i: nat, phase: Phase, parts: Parts)
    requires p.Valid() && Session(p, s) && i < |s.phases|
    requires !Settled(phase) && !Settled(s.phases[i])
    requires Fetching(s.phases[i]) || !Fetching(phase) || |InFlight(s.phases)| < MAX_PARALLEL
    requires parts - {i} == s.parts - {i}
    requires FileMatches(p, State(parts, s.phases[i := phase], 0, [], None), i)
    ensures Session(p, s.(parts := parts, phases := s.phases[i := phase]))
  {
    var t := s.(parts := parts, phases := s.phases[i := phase]);
    SettledUpdate(s.phases, p.segments, i, phase, |p.segments|);
    InFlightUpdate(s.phases, i, phase);
    forall j | 0 <= j < |t.phases|
      ensures FileMatches(p, t, j)
    {
      assert j == i || FileMatches(p, s, j);
      assert j == i || (j in t.parts <==> j in t.parts - {i});
      assert j == i || (j in s.parts <==> j in s.parts - {i});
    }
  }

  lemma InFlightUpdate(phases: seq<Phase>, i: nat, phase: Phase)
    requires i < |phases|
    ensures |InFlight(phases[i := phase])| <=
            |InFlight(phases)| + if Fetching(phase) && !Fetching(phases[i]) then 1 else 0
  {
    var a, b := InFlight(phases), InFlight(phases[i := phase]);
    if Fetching(phase) {
      assert b == a + {i};
      if Fetching(phases[i]) {
        assert a + {i} == a;
      }
    } else {
      assert b == a - {i};
    }
  }

  lemma CountSafe(p: Package, s: State, i: nat)
    requires p.Valid() && Inv(p, s) && Enabled(p, s, Count(i))
    ensures Inv(p, Step(p, s, Count(i)))
  {
    var t := Step(p, s, Count(i));
    SettledUpdate(s.phases, p.segments, i, Counted, |p.segments|);
    InFlightUpdate(s.phases, i, Counted);
    forall j | 0 <= j < |t.phases|
      ensures FileMatches(p, t, j)
    {
      assert FileMatches(p, s, j);
    }
    assert p.segments[i].Length() >= 1;
  }

  lemma {:induction false} BeginSettled(parts: Parts, segments: seq<Segment>, n: nat)
    requires n <= |segments|
    ensures SettledBytes(Phases(parts, segments), segments, n) == Resumed(parts, segments, n)
  {
    if n > 0 {
      BeginSettled(parts, segments, n - 1);
    }
  }

  lemma BeginSafe(p: Package, s: State)
    requires p.Valid() && Inv(p, s) && Enabled(p, s, Begin)
    ensures Inv(p, Step(p, s, Begin))
  {
    var t := Step(p, s, Begin);
    BeginSettled(s.parts, p.segments, |p.segments|);
    assert InFlight(t.phases) == {};
  }

  /** All segments are settled only when all bytes are there. */
  lemma ConcludeWhole(p: Package, s: State)
    requires p.Valid() && Inv(p, s) && Enabled(p, s, Conclude)
    ensures s.downloaded == p.size
    ensures |Combined(s.parts, |p.segments|)| == p.size
    ensures p.payload.Some? ==> Combined(s.parts, |p.segments|) == p.payload.value
  {
    var n := |p.segments|;
    SettledBound(s.phases, p.segments, p.size, p.segmentSize, n);
    TotalIs(p.segments, p.size, p.segmentSize, n);
    forall i | 0 <= i < n
      ensures IsComplete(s.parts, p.segments, i)
    {
      assert FileMatches(p, s, i);
    }
    CombinedSize(s.parts, p.segments, n);
    if p.payload.Some? {
      WithinSize(p.segments, p.size, p.segmentSize);
      var payload := p.payload.value;
      forall i | 0 <= i < n
        ensures HoldsSlice(s.parts, p.segments, payload, i)
      {
        assert IsComplete(s.parts, p.segments, i);
        assert p.MayHold(i, s.parts[i].bytes);
        assert s.parts[i].bytes == Slice(payload, p.segments[i]);
      }
      CombinedPayload(s.parts, p.segments, p.segmentSize, payload, n);
      assert payload[..p.size] == payload;
    }
  }

  predicate IsFetch(e: Event) {
    e.Start? || e.Open? || e.Receive? || e.Fail? || e.Complete?
  }

  lemma FetchSafe(p: Package, s: State, e: Event)
    requires p.Valid() && Inv(p, s) && Enabled(p, s, e) && IsFetch(e)
    ensures s.phases != [] && Session(p, Step(p, s, e))
  {
    var t := Step(p, s, e);
    assert FileMatches(p, s, e.i);
    assert t.phases == s.phases[e.i := t.phases[e.i]];
    Rephased(p, s, e.i, t.phases[e.i], t.parts);
  }

  lemma StepSafe(p: Package, s: State, e: Event)
    requires p.Valid() && Inv(p, s) && Enabled(p, s, e)
    ensures Inv(p, Step(p, s, e))
  {
    match e {
      case Begin => BeginSafe(p, s);
      case Count(i) => CountSafe(p, s, i);
      case Conclude => ConcludeWhole(p, s);
      case _ =>
        if IsFetch(e) {
          WithinSize(p.segments, p.size, p.segmentSize);
          FetchSafe(p, s, e);
        }
    }
  }

  /** Any number of sessions, interrupted anywhere, any interleaving of the segments, any order of
      completion: at most four segments are in flight, progress only grows within a session and never
      passes the size, the finished file has the size and the digest; and from an honest server
      every segment file is a beginning of its slice and the finished file is the payload. */
  lemma {:induction false} RunSafe(p: Package, s: State, events: seq<Event>)
    requires p.Valid() && Inv(p, s) && IsRun(p, s, events)
    ensures Inv(p, After(p, s, events))
    decreases |events|
  {
    if events != [] {
      StepSafe(p, s, events[0]);
      RunSafe(p, Step(p, s, events[0]), events[1..]);
    }
  }

  /** What the invariant says at every point of a session: no report passes the size, and when every
      segment is settled the count is the size, so that the check for an incomplete download after the
      loop never fires; the package then always matches its digest if the server is honest. */
  lemma SessionProgress(p: Package, s: State, events: seq<Event>)
    requires p.Valid() && Inv(p, s) && IsRun(p, s, events)
    ensures var t := After(p, s, events);
            t.phases != [] ==>
              && |InFlight(t.phases)| <= MAX_PARALLEL && Growing(t.reports)
              && (forall k :: 0 <= k < |t.reports| ==> t.reports[k] <= t.downloaded <= p.size)
              && (Enabled(p, t, Conclude) ==> t.downloaded == p.size)
              && (Enabled(p, t, Conclude) && p.payload.Some? && p.hash(p.payload.value) == p.sha256 ==>
                    Step(p, t, Conclude).target == p.payload)
  {
    RunSafe(p, s, events);
    var t := After(p, s, events);
    if t.phases != [] {
      SettledBound(t.phases, p.segments, p.size, p.segmentSize, |p.segments|);
      TotalIs(p.segments, p.size, p.segmentSize, |p.segments|);
      if Enabled(p, t, Conclude) {
        ConcludeWhole(p, t);
      }
    }
  }

  // ---- one reply ----

  /** The server answers a range request from the payload. */
  ghost predicate HonestRange(reply: Reply, payload: Bytes) {
    reply.status == 206 ==>
      exists start: nat, end: nat ::
        start <= end < |payload| && reply.contentRange == Some(ByteRange(start, end, |payload|)) &&
        IsPrefix(reply.Body(), payload[start..end + 1])
  }

  /** What one attempt at a segment leaves of an honest reply is what a step of the machine may add:
      a beginning of the segment's slice, and the slice itself when the attempt succeeds. */
  lemma ServedSlice(parts: Parts, i: nat, reply: Reply, segment: Segment, payload: Bytes)
    requires segment.start <= segment.end < |payload|
    requires Accepts(reply, segment, |payload|) && HonestRange(reply, payload)
    requires Fetched(parts, i, reply, segment)
    ensures IsPrefix(parts[i].bytes, Slice(payload, segment))
    ensures Delivers(Some(reply), segment, |payload|) ==> reply.Body() == Slice(payload, segment)
  {
    var start: nat, end: nat :|
      start <= end < |payload| && reply.contentRange == Some(ByteRange(start, end, |payload|)) &&
      IsPrefix(reply.Body(), payload[start..end + 1]);
    ByteRangeInjective(start, end, segment.start, segment.end, |payload|);
  }
}

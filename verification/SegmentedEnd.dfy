/** How sessions of the segmented download end: what each end leaves, what four failures come to, and that
    an honest server finishes the package from wherever earlier sessions left it. */
module SegmentedEnd {
  import opened Wrappers
  import opened PackageFiles
  import opened Segments
  import opened SegmentFiles
  import opened SegmentedRuns

  ghost predicate Leads(p: Package, s: State, events: seq<Event>, t: State)
    requires p.Valid()
  {
    IsRun(p, s, events) && After(p, s, events) == t
  }

  lemma LeadsOne(p: Package, s: State, e: Event)
    requires p.Valid() && Enabled(p, s, e)
    ensures Leads(p, s, [e], Step(p, s, e))
  {
    hide Enabled, Step;
    assert [e][1..] == [];
    assert IsRun(p, Step(p, s, e), []);
    assert After(p, Step(p, s, e), []) == Step(p, s, e);
  }

  lemma {:induction false} LeadsOn(p: Package, s: State, first: seq<Event>, t: State, second: seq<Event>, u: State)
    requires p.Valid() && Leads(p, s, first, t) && Leads(p, t, second, u)
    ensures Leads(p, s, first + second, u)
    decreases |first|
  {
    hide Enabled, Step;
    if first == [] {
      assert first + second == second;
    } else {
      assert (first + second)[1..] == first[1..] + second;
      LeadsOn(p, Step(p, s, first[0]), first[1..], t, second, u);
    }
  }

  // ---- the ends of a session ----

  /** Stopping keeps every segment file for the next session; cancelling removes them all; neither touches
      the finished file. */
  lemma StopAndCancel(p: Package, s: State)
    requires p.Valid() && s.phases != []
    ensures Enabled(p, s, Stop) && Step(p, s, Stop) == State(s.parts, [], 0, [], s.target)
    ensures Enabled(p, s, Cancel) && Step(p, s, Cancel) == State(map[], [], 0, [], s.target)
  {
  }

  // ---- a segment that fails ----

  /** Three failed attempts are made good by a fourth; after four the segment is given up, and the session
      cannot conclude. No failed attempt leaves a file. */
  lemma FourFailures(p: Package, s: State, i: nat)
    requires p.Valid() && Enabled(p, s, Start(i))
    ensures Leads(p, s, [Start(i)], s.(phases := s.phases[i := Active(0, false)]))
    ensures Leads(p, s, [Start(i), Fail(i), Fail(i), Fail(i)],
                  s.(phases := s.phases[i := Active(3, false)], parts := s.parts - {i}))
    ensures var given := s.(phases := s.phases[i := GaveUp], parts := s.parts - {i});
            Leads(p, s, [Start(i), Fail(i), Fail(i), Fail(i), Fail(i)], given) && !Enabled(p, given, Conclude)
  {
    var s0 := Step(p, s, Start(i));
    var s1 := Failed(p, s0, i, 0, s.phases);
    var s2 := Failed(p, s1, i, 1, s.phases);
    var s3 := Failed(p, s2, i, 2, s.phases);
    var s4 := Failed(p, s3, i, 3, s.phases);
    assert s0 == s.(phases := s.phases[i := Active(0, false)]);
    assert s.parts - {i} - {i} == s.parts - {i};
    assert s3 == s.(phases := s.phases[i := Active(3, false)], parts := s.parts - {i});
    assert s4 == s.(phases := s.phases[i := GaveUp], parts := s.parts - {i});
    assert !Settled(s4.phases[i]);
    LeadsOne(p, s, Start(i));
    hide Enabled, Step;
    LeadsOn(p, s, [Start(i)], s0, [Fail(i)], s1);
    LeadsOn(p, s, [Start(i)] + [Fail(i)], s1, [Fail(i)], s2);
    LeadsOn(p, s, [Start(i)] + [Fail(i)] + [Fail(i)], s2, [Fail(i)], s3);
    LeadsOn(p, s, [Start(i)] + [Fail(i)] + [Fail(i)] + [Fail(i)], s3, [Fail(i)], s4);
    assert [Start(i)] + [Fail(i)] + [Fail(i)] + [Fail(i)] == [Start(i), Fail(i), Fail(i), Fail(i)];
    assert [Start(i)] + [Fail(i)] + [Fail(i)] + [Fail(i)] + [Fail(i)] == [Start(i), Fail(i), Fail(i), Fail(i), Fail(i)];
  }

  lemma Failed(p: Package, s: State, i: nat, attempt: nat, before: seq<Phase>) returns (t: State)
    requires p.Valid() && i < |before| && s.phases == before[i := Active(attempt, false)]
    ensures t == s.(phases := before[i := if attempt < 3 then Active(attempt + 1, false) else GaveUp],
                    parts := s.parts - {i})
    ensures Leads(p, s, [Fail(i)], t)
  {
    t := Step(p, s, Fail(i));
    LeadsOne(p, s, Fail(i));
  }

  // ---- a session that succeeds ----

  /** The five steps of a segment whose first attempt delivers. */
  function Served(p: Package, i: nat, bytes: Bytes): seq<Event> {
    [Start(i), Open(i), Receive(i, bytes), Complete(i), Count(i)]
  }

  lemma OneServed(p: Package, s: State, i: nat, bytes: Bytes)
    requires p.Valid() && i < |p.segments| && Enabled(p, s, Start(i))
    requires |bytes| == p.segments[i].Length() && p.MayHold(i, bytes)
    ensures var downloaded := s.downloaded + p.segments[i].Length();
            Leads(p, s, Served(p, i, bytes),
                  State(s.parts[i := File(bytes)], s.phases[i := Counted], downloaded, s.reports + [downloaded],
                        s.target))
  {
    var s1 := Step(p, s, Start(i));
    var s2 := Step(p, s1, Open(i));
    assert s2.parts[i] == File([]) && [] + bytes == bytes;
    var s3 := Step(p, s2, Receive(i, bytes));
    var s4 := Step(p, s3, Complete(i));
    var s5 := Step(p, s4, Count(i));
    var downloaded := s.downloaded + p.segments[i].Length();
    assert s3.parts == s.parts[i := File(bytes)];
    assert s5.phases == s.phases[i := Counted];
    LeadsOne(p, s, Start(i));
    LeadsOne(p, s1, Open(i));
    LeadsOne(p, s2, Receive(i, bytes));
    LeadsOne(p, s3, Complete(i));
    LeadsOne(p, s4, Count(i));
    hide Enabled, Step;
    LeadsOn(p, s, [Start(i)], s1, [Open(i)], s2);
    LeadsOn(p, s, [Start(i)] + [Open(i)], s2, [Receive(i, bytes)], s3);
    LeadsOn(p, s, [Start(i)] + [Open(i)] + [Receive(i, bytes)], s3, [Complete(i)], s4);
    LeadsOn(p, s, [Start(i)] + [Open(i)] + [Receive(i, bytes)] + [Complete(i)], s4, [Count(i)], s5);
    assert [Start(i)] + [Open(i)] + [Receive(i, bytes)] + [Complete(i)] + [Count(i)] == Served(p, i, bytes);
  }

  /** The first `n` segments are settled, the others found or waiting, and nothing is under way. */
  predicate SettledTo(s: State, n: nat) {
    && n <= |s.phases|
    && (forall i :: 0 <= i < n ==> Settled(s.phases[i]))
    && (forall i :: n <= i < |s.phases| ==> s.phases[i] == Found || s.phases[i] == Waiting)
  }

  lemma NobodyInFlight(s: State, n: nat)
    requires SettledTo(s, n)
    ensures InFlight(s.phases) == {}
  {
    assert forall i :: 0 <= i < |s.phases| ==> !Fetching(s.phases[i]);
  }

  /** The rest of a session, segment by segment. */
  lemma {:induction false} RestServed(p: Package, s: State, n: nat) returns (events: seq<Event>, t: State)
    requires p.Valid() && p.payload.Some? && Inv(p, s) && s.phases != [] && SettledTo(s, n)
    ensures Leads(p, s, events, t) && Inv(p, t) && t.phases != [] && SettledTo(t, |t.phases|)
    ensures t.target == s.target && |t.phases| == |s.phases|
    decreases |s.phases| - n
  {
    if n == |s.phases| {
      events, t := [], s;
    } else if s.phases[n] == Found {
      events, t := RestServed(p, s, n + 1);
    } else {
      NobodyInFlight(s, n);
      WithinSize(p.segments, p.size, p.segmentSize);
      var bytes := Slice(p.payload.value, p.segments[n]);
      assert |bytes| == p.segments[n].Length() && p.MayHold(n, bytes);
      OneServed(p, s, n, bytes);
      var first := Served(p, n, bytes);
      RunSafe(p, s, first);
      var u := After(p, s, first);
      var rest;
      rest, t := RestServed(p, u, n + 1);
      events := first + rest;
      LeadsOn(p, s, first, u, rest, t);
    }
  }

  /** Whatever earlier sessions left of an honest server's package, one more session can finish it: the
      finished file is the payload, and no segment file is left. */
  lemma SessionFinishes(p: Package, s: State) returns (events: seq<Event>)
    requires p.Valid() && p.size > 0 && Inv(p, s) && s.phases == []
    requires p.payload.Some? && p.hash(p.payload.value) == p.sha256
    ensures Leads(p, s, events, State(map[], [], 0, [], p.payload))
  {
    var begun := Step(p, s, Begin);
    BeginSafe(p, s);
    assert |begun.phases| == |p.segments| > 0;
    assert SettledTo(begun, 0);
    LeadsOne(p, s, Begin);
    hide Enabled, Step, Inv;
    var rest, t := RestServed(p, begun, 0);
    LeadsOn(p, s, [Begin], begun, rest, t);
    Concludes(p, t);
    LeadsOn(p, s, [Begin] + rest, t, [Conclude], State(map[], [], 0, [], p.payload));
    events := [Begin] + rest + [Conclude];
  }

  lemma Concludes(p: Package, t: State)
    requires p.Valid() && Inv(p, t) && t.phases != [] && SettledTo(t, |t.phases|)
    requires p.payload.Some? && p.hash(p.payload.value) == p.sha256
    ensures Leads(p, t, [Conclude], State(map[], [], 0, [], p.payload))
  {
    ConcludeWhole(p, t);
    LeadsOne(p, t, Conclude);
  }
}

/** The health tracker of one proxy connection: counters with hysteresis, and what they mean in terms
    of everything that has been recorded. */
module Health {
  import opened Wrappers

  const FAILURE_THRESHOLD: nat := 3
  const RECOVERY_THRESHOLD: nat := 2
  const REQUEST_RECOVERY_THRESHOLD: nat := 2

  datatype Kind =
    | AddressUnavailable | Connect | ConnectionRefused | Dns | HostUnreachable | NetworkUnreachable | NotConnected
    | ConnectionReset | ConnectionAborted | Timeout | Io | Request

  predicate Recoverable(kind: Kind) {
    kind in {AddressUnavailable, Connect, ConnectionRefused, Dns, HostUnreachable, NetworkUnreachable, NotConnected}
  }

  datatype Event =
    | PeriodicFailure(message: string)
    | PeriodicSuccess
    | RequestFailure(message: string, kind: Kind)
    | RequestSuccess
    | RuntimeFailure(message: string)
    | RuntimeSuccess

  /** The tracked state; `generation` numbers the HTTP client that the connection uses. */
  datatype State = State(
    periodicError: Option<string>, periodicFailures: nat, periodicSuccesses: nat,
    requestError: Option<string>, requestKind: Option<Kind>, requestFailures: nat, requestSuccesses: nat,
    runtimeError: Option<string>, generation: nat)

  const NEW: State := State(None, 0, 0, None, None, 0, 0, None, 1)

  function Saturating(n: nat): nat {
    if n < 255 then n + 1 else n
  }

  function ClearRequest(s: State): State {
    s.(requestError := None, requestKind := None, requestFailures := 0, requestSuccesses := 0)
  }

  /** A success that takes the connection out of its periodic error. */
  predicate Recovers(s: State, e: Event) {
    e.PeriodicSuccess? && s.periodicError.Some? && Saturating(s.periodicSuccesses) >= RECOVERY_THRESHOLD
  }

  function Step(s: State, e: Event): State {
    match e
    case PeriodicFailure(message) =>
      var failures := Saturating(s.periodicFailures);
      s.(periodicSuccesses := 0, periodicFailures := failures,
         periodicError := if failures < FAILURE_THRESHOLD then s.periodicError else Some(message))
    case PeriodicSuccess =>
      if Recovers(s, e) then
        var r := s.(
          periodicFailures := 0, periodicError := None, periodicSuccesses := 0, generation := s.generation + 1);
        if s.requestKind.Some? && Recoverable(s.requestKind.value) then ClearRequest(r) else r
      else
        s.(periodicFailures := 0,
           periodicSuccesses := if s.periodicError.None? then 0 else Saturating(s.periodicSuccesses))
    case RequestFailure(message, kind) =>
      s.(requestSuccesses := 0, requestError := Some(message), requestKind := Some(kind),
         requestFailures := s.requestFailures + 1)
    case RequestSuccess =>
      if s.requestError.None? then s.(requestSuccesses := 0)
      else if Saturating(s.requestSuccesses) < REQUEST_RECOVERY_THRESHOLD then
        s.(requestSuccesses := Saturating(s.requestSuccesses))
      else ClearRequest(s)
    case RuntimeFailure(message) => s.(runtimeError := Some(message))
    case RuntimeSuccess => s.(runtimeError := None)
  }

  function After(history: seq<Event>): State {
    if history == [] then NEW else Step(After(history[..|history| - 1]), history[|history| - 1])
  }

  class ConnectionHealth {
    var periodicError: Option<string>
    var periodicFailures: nat
    var periodicSuccesses: nat
    var requestError: Option<string>
    var requestKind: Option<Kind>
    var requestFailures: nat
    var requestSuccesses: nat
    var runtimeError: Option<string>
    var generation: nat
    ghost var history: seq<Event>

    function View(): State
      reads this
    {
      State(periodicError, periodicFailures, periodicSuccesses, requestError, requestKind, requestFailures,
            requestSuccesses, runtimeError, generation)
    }

    /** The counters are what the recorded history makes of them. */
    ghost predicate Valid()
      reads this
    {
      View() == After(history)
    }

    constructor ()
      ensures Valid() && history == []
    {
      periodicError, periodicFailures, periodicSuccesses := None, 0, 0;
      requestError, requestKind, requestFailures, requestSuccesses := None, None, 0, 0;
      runtimeError, generation, history := None, 1, [];
    }

    ghost method Record(e: Event)
      requires View() == Step(After(history), e)
      modifies this`history
      ensures Valid() && history == old(history) + [e]
    {
      history := history + [e];
      assert history[..|history| - 1] == old(history);
    }

    method RecordPeriodicFailure(message: string)
      requires Valid()
      modifies this
      ensures Valid() && history == old(history) + [PeriodicFailure(message)]
    {
      periodicSuccesses := 0;
      periodicFailures := Saturating(periodicFailures);
      if periodicFailures >= FAILURE_THRESHOLD {
        periodicError := Some(message);
      }
      Record(PeriodicFailure(message));
    }

    /** Returns whether the connection has just recovered; the caller then resets its HTTP client. */
    method RecordPeriodicSuccess() returns (recovered: bool)
      requires Valid()
      modifies this
      ensures Valid() && history == old(history) + [PeriodicSuccess]
      ensures recovered <==> old(periodicError).Some? && periodicError.None?
      ensures generation == old(generation) + (if recovered then 1 else 0)
    {
      periodicFailures := 0;
      if periodicError.None? {
        periodicSuccesses := 0;
        Record(PeriodicSuccess);
        return false;
      }
      periodicSuccesses := Saturating(periodicSuccesses);
      if periodicSuccesses < RECOVERY_THRESHOLD {
        Record(PeriodicSuccess);
        return false;
      }
      periodicError := None;
      periodicSuccesses := 0;
      if requestKind.Some? && Recoverable(requestKind.value) {
        ClearRequestError();
      }
      generation := generation + 1;
      Record(PeriodicSuccess);
      return true;
    }

    method ClearRequestError()
      modifies this`requestError, this`requestKind, this`requestFailures, this`requestSuccesses
      ensures View() == ClearRequest(old(View()))
    {
      requestError := None;
      requestKind := None;
      requestFailures := 0;
      requestSuccesses := 0;
    }

    method RecordRequestFailure(message: string, kind: Kind)
      requires Valid()
      modifies this
      ensures Valid() && history == old(history) + [RequestFailure(message, kind)]
    {
      requestSuccesses := 0;
      requestError := Some(message);
      requestKind := Some(kind);
      requestFailures := requestFailures + 1;
      Record(RequestFailure(message, kind));
    }

    method RecordRequestSuccess()
      requires Valid()
      modifies this
      ensures Valid() && history == old(history) + [RequestSuccess]
    {
      if requestError.None? {
        requestSuccesses := 0;
      } else {
        requestSuccesses := Saturating(requestSuccesses);
        if requestSuccesses >= REQUEST_RECOVERY_THRESHOLD {
          ClearRequestError();
        }
      }
      Record(RequestSuccess);
    }

    method RecordRuntimeFailure(message: string)
      requires Valid()
      modifies this
      ensures Valid() && history == old(history) + [RuntimeFailure(message)]
    {
      runtimeError := Some(message);
      Record(RuntimeFailure(message));
    }

    method RecordRuntimeSuccess()
      requires Valid()
      modifies this
      ensures Valid() && history == old(history) + [RuntimeSuccess]
    {
      runtimeError := None;
      Record(RuntimeSuccess);
    }

    /** Healthy exactly when none of the three errors is set; a listener error comes first. */
    method LastError() returns (error: Option<string>)
      ensures error.None? <==> runtimeError.None? && requestError.None? && periodicError.None?
      ensures runtimeError.Some? ==> error == runtimeError
      ensures runtimeError.None? && requestError.Some? ==> error == requestError
    {
      return if runtimeError.Some? then runtimeError else if requestError.Some? then requestError else periodicError;
    }
  }

  // ---------------------------------------------------------------------------------------------
  // The periodic error as a property of the history
  // ---------------------------------------------------------------------------------------------

  /** The periodic checks of a history in order; true is a failure. */
  function Checks(history: seq<Event>): seq<bool> {
    if history == [] then []
    else
      var rest, e := Checks(history[..|history| - 1]), history[|history| - 1];
      match e
      case PeriodicFailure(_) => rest + [true]
      case PeriodicSuccess => rest + [false]
      case _ => rest
  }

  predicate FailureRun(p: seq<bool>, i: int) {
    0 <= i && i + 3 <= |p| && p[i] && p[i + 1] && p[i + 2]
  }

  predicate SuccessPair(p: seq<bool>, j: int) {
    0 <= j && j + 2 <= |p| && !p[j] && !p[j + 1]
  }

  ghost predicate OpenRun(p: seq<bool>, i: int) {
    FailureRun(p, i) && forall j :: i + 3 <= j ==> !SuccessPair(p, j)
  }

  /** Some run of three consecutive failures has not been followed by two consecutive successes. */
  ghost predicate Degraded(p: seq<bool>) {
    exists i :: OpenRun(p, i)
  }

  /** How many of the latest checks in a row had this outcome. */
  function Trailing(p: seq<bool>, outcome: bool): nat {
    if p == [] || p[|p| - 1] != outcome then 0 else 1 + Trailing(p[..|p| - 1], outcome)
  }

  ghost predicate PeriodicMeans(s: State, p: seq<bool>) {
    && (s.periodicError.Some? <==> Degraded(p))
    && s.periodicFailures == (if Trailing(p, true) < 255 then Trailing(p, true) else 255)
    && s.periodicSuccesses == (if Degraded(p) then Trailing(p, false) else 0)
    && s.periodicSuccesses < 2
  }

  lemma RunsInPrefix(p: seq<bool>, c: bool)
    ensures forall i :: i + 3 <= |p| ==> (FailureRun(p + [c], i) <==> FailureRun(p, i))
    ensures forall j :: j + 2 <= |p| ==> (SuccessPair(p + [c], j) <==> SuccessPair(p, j))
    ensures (p + [c])[..|p|] == p
  {
  }

  lemma TrailingRun(p: seq<bool>)
    ensures Trailing(p, true) >= 3 <==> FailureRun(p, |p| - 3)
  {
    if |p| >= 3 {
      assert p[..|p| - 1][..|p| - 2] == p[..|p| - 2];
      assert p[..|p| - 2][..|p| - 3] == p[..|p| - 3];
      assert Trailing(p[..|p| - 1], true) >= 2 <==> p[|p| - 2] && p[|p| - 3];
    } else {
      TrailingShort(p, true);
    }
  }

  lemma {:induction false} TrailingShort(p: seq<bool>, outcome: bool)
    ensures Trailing(p, outcome) <= |p|
  {
    if p != [] {
      TrailingShort(p[..|p| - 1], outcome);
    }
  }

  lemma DegradedAfterFailure(p: seq<bool>)
    ensures Degraded(p + [true]) <==> Degraded(p) || Trailing(p + [true], true) >= 3
  {
    var q := p + [true];
    RunsInPrefix(p, true);
    TrailingRun(q);
    if i :| OpenRun(p, i) {
      assert OpenRun(q, i);
    }
    if FailureRun(q, |q| - 3) {
      assert OpenRun(q, |q| - 3);
    }
    if i :| OpenRun(q, i) {
      if i + 3 <= |p| {
        assert forall j :: SuccessPair(p, j) ==> SuccessPair(q, j);
        assert OpenRun(p, i);
      } else {
        assert i == |q| - 3;
      }
    }
  }

  lemma DegradedAfterSuccess(p: seq<bool>)
    ensures Degraded(p + [false]) <==> Degraded(p) && Trailing(p, false) == 0
  {
    var q := p + [false];
    RunsInPrefix(p, false);
    assert q[|p|] == false;
    if i :| OpenRun(q, i) {
      assert FailureRun(p, i);
      assert forall j :: SuccessPair(p, j) ==> SuccessPair(q, j);
      assert OpenRun(p, i);
      assert !SuccessPair(q, |q| - 2);
    }
    if Degraded(p) && Trailing(p, false) == 0 {
      var i :| OpenRun(p, i);
      assert p[|p| - 1];
      assert OpenRun(q, i);
    }
  }

  lemma PeriodicFailureMeans(s: State, p: seq<bool>, message: string)
    requires PeriodicMeans(s, p)
    ensures PeriodicMeans(Step(s, PeriodicFailure(message)), p + [true])
  {
    hide Degraded;
    DegradedAfterFailure(p);
    assert (p + [true])[..|p|] == p;
    assert Trailing(p + [true], true) == 1 + Trailing(p, true);
    assert Trailing(p + [true], false) == 0;
  }

  lemma PeriodicSuccessMeans(s: State, p: seq<bool>)
    requires PeriodicMeans(s, p)
    ensures PeriodicMeans(Step(s, PeriodicSuccess), p + [false])
    ensures Recovers(s, PeriodicSuccess) <==> Degraded(p) && !Degraded(p + [false])
  {
    hide Degraded;
    DegradedAfterSuccess(p);
    assert (p + [false])[..|p|] == p;
    assert Trailing(p + [false], false) == 1 + Trailing(p, false);
    assert Trailing(p + [false], true) == 0;
  }

  lemma {:induction false} PeriodicClosedForm(history: seq<Event>)
    ensures PeriodicMeans(After(history), Checks(history))
  {
    if history == [] {
      assert !Degraded([]);
    } else {
      var h, e := history[..|history| - 1], history[|history| - 1];
      PeriodicClosedForm(h);
      hide PeriodicMeans, Degraded;
      match e
      case PeriodicFailure(m) => PeriodicFailureMeans(After(h), Checks(h), m);
      case PeriodicSuccess => PeriodicSuccessMeans(After(h), Checks(h));
      case _ => OtherMeans(After(h), Checks(h), e);
    }
  }

  lemma OtherMeans(s: State, p: seq<bool>, e: Event)
    requires PeriodicMeans(s, p) && !e.PeriodicFailure? && !e.PeriodicSuccess?
    ensures PeriodicMeans(Step(s, e), p)
  {
    hide Degraded;
  }

  /** The failure at `k` is at least the third check in a row to fail. */
  ghost predicate Raises(history: seq<Event>, k: int) {
    && 0 <= k < |history| && history[k].PeriodicFailure?
    && var p := Checks(history[..k + 1]); FailureRun(p, |p| - 3)
  }

  ghost predicate LatestRaise(history: seq<Event>, k: int) {
    && 0 <= k < |history| && history[k].PeriodicFailure?
    && Raises(history, k) && forall i :: k < i ==> !Raises(history, i)
  }

  lemma RaisesNext(h: seq<Event>, e: Event, k: int)
    ensures k < |h| ==> (Raises(h + [e], k) <==> Raises(h, k))
    ensures k > |h| ==> !Raises(h + [e], k)
  {
    if 0 <= k < |h| {
      assert (h + [e])[..k + 1] == h[..k + 1];
    }
    hide Checks, FailureRun;
  }

  lemma RaisesHere(h: seq<Event>, e: Event)
    ensures Raises(h + [e], |h|) <==> e.PeriodicFailure? && After(h).periodicFailures >= 2
    ensures Raises(h + [e], |h|) ==> e.PeriodicFailure?
  {
    assert (h + [e])[..|h| + 1] == h + [e];
    CountsFailures(h);
    ThirdInRow(Checks(h));
    if e.PeriodicFailure? {
      ChecksNext(h, e);
    }
    hide *;
  }

  lemma CountsFailures(h: seq<Event>)
    ensures After(h).periodicFailures >= 2 <==> Trailing(Checks(h), true) >= 2
  {
    PeriodicClosedForm(h);
    hide After, Degraded, Checks;
  }

  lemma ChecksNext(h: seq<Event>, e: Event)
    requires e.PeriodicFailure?
    ensures Checks(h + [e]) == Checks(h) + [true]
  {
    assert (h + [e])[..|h|] == h;
  }

  lemma ThirdInRow(p: seq<bool>)
    ensures FailureRun(p + [true], |p| - 2) <==> Trailing(p, true) >= 2
  {
    TrailingRun(p + [true]);
    assert (p + [true])[..|p|] == p;
    assert Trailing(p + [true], true) == 1 + Trailing(p, true);
  }

  lemma AfterNext(h: seq<Event>, e: Event)
    ensures After(h + [e]) == Step(After(h), e)
  {
    assert (h + [e])[..|h|] == h;
    hide Step;
  }

  lemma MessageNext(s: State, e: Event)
    requires Step(s, e).periodicError.Some?
    ensures if e.PeriodicFailure? && s.periodicFailures >= 2 then Step(s, e).periodicError == Some(e.message)
            else Step(s, e).periodicError == s.periodicError
  {
  }

  lemma NothingRaised()
    ensures After([]).periodicError.None?
  {
  }

  /** The periodic error is that of the latest failure that was at least the third in a row. */
  lemma {:induction false} PeriodicMessage(history: seq<Event>)
    ensures After(history).periodicError.Some? ==>
      exists k :: LatestRaise(history, k) && After(history).periodicError == Some(history[k].message)
  {
    hide Raises, After, Step, Checks, FailureRun;
    if history == [] {
      NothingRaised();
    } else if After(history).periodicError.Some? {
      var h, e := history[..|history| - 1], history[|history| - 1];
      assert history == h + [e];
      PeriodicMessage(h);
      forall k: int
        ensures k < |h| ==> (Raises(history, k) <==> Raises(h, k))
        ensures k > |h| ==> !Raises(history, k)
      {
        RaisesNext(h, e, k);
      }
      RaisesHere(h, e);
      AfterNext(h, e);
      MessageNext(After(h), e);
      if Raises(history, |h|) {
        assert LatestRaise(history, |h|);
      } else {
        var k :| LatestRaise(h, k) && After(h).periodicError == Some(h[k].message);
        assert LatestRaise(history, k);
      }
    }
  }

  /** The listener error is that of the latest listener event, if that was a failure. */
  lemma {:induction false} RuntimeClosedForm(history: seq<Event>, k: nat)
    requires k < |history| && (history[k].RuntimeFailure? || history[k].RuntimeSuccess?)
    requires forall i :: k < i < |history| ==> !history[i].RuntimeFailure? && !history[i].RuntimeSuccess?
    ensures After(history).runtimeError ==
            if history[k].RuntimeFailure? then Some(history[k].message) else None
  {
    if k < |history| - 1 {
      RuntimeClosedForm(history[..|history| - 1], k);
    }
  }

  // ---------------------------------------------------------------------------------------------
  // The request error and the client generation
  // ---------------------------------------------------------------------------------------------

  /** The check at `q` took the connection out of its periodic error. */
  ghost predicate TcpRecovery(history: seq<Event>, q: int) {
    && 0 <= q < |history| && history[q].PeriodicSuccess?
    && Degraded(Checks(history[..q])) && !Degraded(Checks(history[..q + 1]))
  }

  ghost function Recoveries(history: seq<Event>): nat {
    if history == [] then 0
    else Recoveries(history[..|history| - 1]) + (if TcpRecovery(history, |history| - 1) then 1 else 0)
  }

  predicate LatestRequestFailure(history: seq<Event>, k: int) {
    0 <= k < |history| && history[k].RequestFailure? && forall i :: k < i < |history| ==> !history[i].RequestFailure?
  }

  function SuccessesAfter(history: seq<Event>, k: int): nat {
    if |history| <= k + 1 || history == [] then 0
    else SuccessesAfter(history[..|history| - 1], k) + (if history[|history| - 1].RequestSuccess? then 1 else 0)
  }

  /** Failures on a connection that stood: that a new one can be made does not settle them. */
  predicate Lasting(kind: Kind) {
    kind == ConnectionReset || kind == ConnectionAborted || kind == Timeout || kind == Io || kind == Request
  }

  /** Fewer than two request successes came after the latest request failure, and no TCP recovery unless
      that failure was on a connection that stood. */
  ghost predicate Failing(history: seq<Event>, k: int) {
    && LatestRequestFailure(history, k)
    && SuccessesAfter(history, k) < 2
    && (Lasting(history[k].kind) || !exists q :: k < q && TcpRecovery(history, q))
  }

  ghost predicate RequestMeans(s: State, history: seq<Event>) {
    && (s.requestError.Some? <==> exists k :: Failing(history, k))
    && (s.requestKind.Some? <==> s.requestError.Some?)
    && (s.requestError.None? ==> s.requestSuccesses == 0 && s.requestFailures == 0)
    && (forall k :: Failing(history, k) ==>
          s.requestError == Some(history[k].message) && s.requestKind == Some(history[k].kind)
          && s.requestSuccesses == SuccessesAfter(history, k))
  }

  lemma RecoveryInPrefix(h: seq<Event>, e: Event, q: int)
    requires q < |h|
    ensures TcpRecovery(h + [e], q) <==> TcpRecovery(h, q)
  {
    if 0 <= q {
      assert (h + [e])[..q] == h[..q] && (h + [e])[..q + 1] == h[..q + 1];
    }
  }

  lemma LatestIsUnique(h: seq<Event>, k: int, l: int)
    requires LatestRequestFailure(h, k) && LatestRequestFailure(h, l)
    ensures k == l
  {
  }

  /** How one event changes which request failure is still open. */
  lemma FailingStep(h: seq<Event>, e: Event, k: int)
    requires k < |h| && !e.RequestFailure?
    ensures Failing(h + [e], k) <==>
      && Failing(h, k)
      && (e.RequestSuccess? ==> SuccessesAfter(h, k) + 1 < 2)
      && (!Lasting(h[k].kind) ==> !TcpRecovery(h + [e], |h|))
    ensures 0 <= k ==> SuccessesAfter(h + [e], k) == SuccessesAfter(h, k) + (if e.RequestSuccess? then 1 else 0)
  {
    var h' := h + [e];
    assert h'[..|h'| - 1] == h && h'[|h|] == e;
    LatestStep(h, e, k);
    RecoveryStep(h, e, k);
    hide TcpRecovery, Lasting, LatestRequestFailure;
    assert 0 <= k ==> h'[k] == h[k];
    assert LatestRequestFailure(h, k) ==> 0 <= k by {
      LatestInside(h, k);
    }
  }

  lemma LatestInside(h: seq<Event>, k: int)
    ensures LatestRequestFailure(h, k) ==> 0 <= k < |h|
  {
  }

  lemma LatestStep(h: seq<Event>, e: Event, k: int)
    requires k < |h| && !e.RequestFailure?
    ensures LatestRequestFailure(h + [e], k) <==> LatestRequestFailure(h, k)
  {
    assert forall i :: 0 <= i < |h| ==> (h + [e])[i] == h[i];
  }

  lemma RecoveryStep(h: seq<Event>, e: Event, k: int)
    requires k < |h|
    ensures (exists q :: k < q && TcpRecovery(h + [e], q)) <==>
            (exists q :: k < q && TcpRecovery(h, q)) || TcpRecovery(h + [e], |h|)
  {
    var h' := h + [e];
    OnlyInside(h');
    OnlyInside(h);
    hide TcpRecovery;
    forall q | q < |h|
      ensures TcpRecovery(h', q) <==> TcpRecovery(h, q)
    {
      RecoveryInPrefix(h, e, q);
    }
    assert forall q :: TcpRecovery(h', q) ==> q < |h| || q == |h|;
  }

  lemma OnlyInside(h: seq<Event>)
    ensures forall q :: TcpRecovery(h, q) ==> q < |h|
  {
  }

  lemma FailingNew(h: seq<Event>, e: Event)
    requires e.RequestFailure?
    ensures forall k :: Failing(h + [e], k) <==> k == |h|
    ensures SuccessesAfter(h + [e], |h|) == 0
  {
    var h' := h + [e];
    OnlyInside(h');
    hide TcpRecovery;
    assert h'[|h|] == e;
    assert LatestRequestFailure(h', |h|);
    forall k | Failing(h', k)
      ensures k == |h|
    {
      LatestIsUnique(h', k, |h|);
    }
  }

  /** Every history: the request error is set exactly as its successes, failures and recoveries say,
      and carries the latest failure. */
  lemma {:induction false} RequestClosedForm(history: seq<Event>)
    ensures RequestMeans(After(history), history)
  {
    if history != [] {
      var h, e := history[..|history| - 1], history[|history| - 1];
      assert history == h + [e];
      RequestClosedForm(h);
      if e.RequestFailure? {
        FailingNew(h, e);
        hide Failing;
        assert Failing(history, |h|);
      } else {
        RequestStep(h, e);
      }
    }
  }

  function CountRequestFailures(events: seq<Event>): nat {
    if events == [] then 0
    else
      CountRequestFailures(events[..|events| - 1]) + if events[|events| - 1].RequestFailure? then 1 else 0
  }

  lemma NoneCounted(history: seq<Event>)
    ensures After(history).requestError.None? ==> After(history).requestFailures == 0
  {
    RequestClosedForm(history);
    hide After, Failing;
  }

  /** The count that is logged: the request failures since there was no request error. */
  lemma {:induction false} RequestCount(history: seq<Event>, q: nat)
    requires q <= |history| && After(history[..q]).requestError.None?
    requires forall i :: q < i <= |history| ==> After(history[..i]).requestError.Some?
    ensures After(history).requestFailures == CountRequestFailures(history[q..])
  {
    hide After, Step;
    if q == |history| {
      NoneCounted(history);
      assert history[..q] == history && history[q..] == [];
    } else {
      hide CountRequestFailures;
      var h, e := history[..|history| - 1], history[|history| - 1];
      assert forall i :: 0 <= i < |history| ==> h[..i] == history[..i];
      RequestCount(h, q);
      assert history[q..] == h[q..] + [e] && history[..|history|] == history && h + [e] == history;
      AfterNext(h, e);
      CountNext(h[q..], e);
      FailuresNext(After(h), e);
    }
  }

  lemma CountNext(events: seq<Event>, e: Event)
    ensures CountRequestFailures(events + [e]) == CountRequestFailures(events) + if e.RequestFailure? then 1 else 0
  {
    assert (events + [e])[..|events|] == events;
  }

  lemma FailuresNext(s: State, e: Event)
    requires Step(s, e).requestError.Some?
    ensures Step(s, e).requestFailures == s.requestFailures + if e.RequestFailure? then 1 else 0
  {
  }

  lemma LastRecovery(h: seq<Event>, e: Event)
    ensures TcpRecovery(h + [e], |h|) <==> Recovers(After(h), e)
  {
    var h' := h + [e];
    assert h'[..|h|] == h && h'[..|h| + 1] == h' && h'[..|h'| - 1] == h;
    PeriodicClosedForm(h);
    if e.PeriodicSuccess? {
      PeriodicSuccessMeans(After(h), Checks(h));
    }
  }

  lemma RequestStep(h: seq<Event>, e: Event)
    requires RequestMeans(After(h), h) && !e.RequestFailure?
    ensures RequestMeans(Step(After(h), e), h + [e])
  {
    var h' := h + [e];
    var s, s' := After(h), Step(After(h), e);
    LastRecovery(h, e);
    forall k | k < |h|
      ensures Failing(h', k) <==>
        && Failing(h, k)
        && (e.RequestSuccess? ==> SuccessesAfter(h, k) + 1 < 2)
        && (!Lasting(h[k].kind) ==> !TcpRecovery(h', |h|))
      ensures 0 <= k ==> SuccessesAfter(h', k) == SuccessesAfter(h, k) + (if e.RequestSuccess? then 1 else 0)
    {
      FailingStep(h, e, k);
    }
    assert forall k :: Failing(h', k) ==> 0 <= k < |h| && h'[k] == h[k];
    assert forall k :: Failing(h, k) ==> 0 <= k < |h|;
    hide Failing, TcpRecovery, Recoverable, Lasting, SuccessesAfter, After;
    if s.requestError.Some? {
      var k :| Failing(h, k);
      assert s.requestSuccesses == SuccessesAfter(h, k);
      if s'.requestError.Some? {
        assert Failing(h', k);
      }
    }
  }

  /** The client in use is the first one plus one for every TCP recovery. */
  lemma {:induction false} GenerationClosedForm(history: seq<Event>)
    ensures After(history).generation == 1 + Recoveries(history)
  {
    if history != [] {
      var h, e := history[..|history| - 1], history[|history| - 1];
      assert history == h + [e];
      GenerationClosedForm(h);
      LastRecovery(h, e);
    }
  }
}

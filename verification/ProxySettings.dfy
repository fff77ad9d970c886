/** What proxy settings become of an input, which inputs are taken, and what the operations of the manager
    leave, said field by field. */
module ProxySettings {
  import opened Wrappers
  import opened Text
  import opened Domains
  import opened Proxy
  import opened ProxyRuns

  // ---- from input to settings ----

  /** Every field of the settings is the user's, or the documented default where the user gave none. */
  lemma FromInputFields(input: Input, syntax: Syntax)
    requires FromInput(input, syntax).Ok?
    ensures var s := FromInput(input, syntax).value;
      && s.listenPort == input.listenPort && s.secured == input.secured && s.listenHost == "127.0.0.1"
      && (input.httpsPort.Some? ==> s.httpsPort == input.httpsPort)
      && (input.httpsPort.None? && input.secured ==>
            s.listenPort < 10000 && s.httpsPort == Some(40000 + s.listenPort))
      && (input.httpsPort.None? && !input.secured ==> s.httpsPort == None)
      && (input.timeout.Some? && input.timeout.value > 0 ==> s.timeout == input.timeout.value)
      && (input.timeout in {None, Some(0)} ==> s.timeout == 120)
      && |s.id| == |Trim(input.id)| == |s.name|
      && (forall i :: 0 <= i < |s.id| ==>
            s.id[i] == LowerChar(Trim(input.id)[i]) && s.name[i] == UpperChar(Trim(input.id)[i]))
      && NormalizeDomain(input.domain) == Some(s.domain)
      && syntax.normalizeOrigins(input.allowedOrigins, s.domain) == Some(s.allowedOrigins)
      && s.target == TrimEndOf(Trim(input.target), '/')
  {
    DefaultHttpsPortIs(input.listenPort);
    hide NormalizeDomain, IdChar;
  }

  /** The port that will serve HTTPS is allowed. */
  predicate HttpsPortFits(input: Input) {
    match input.httpsPort
    case Some(port) => 1024 <= port && port != input.listenPort
    case None => input.secured ==> input.listenPort < 10000
  }

  /** Exactly the inputs that are taken. */
  lemma AcceptedInput(input: Input, syntax: Syntax)
    ensures FromInput(input, syntax).Ok? <==>
      && Trim(input.id) != ""
      && (forall c :: c in Trim(input.id) ==> c in LOWERCASE || c in UPPERCASE || c in DIGITS || c == '-')
      && NormalizeDomain(input.domain).Some?
      && syntax.normalizeOrigins(input.allowedOrigins, NormalizeDomain(input.domain).value).Some?
      && 1024 <= input.listenPort && HttpsPortFits(input)
      && (input.timeout.Some? ==> input.timeout.value <= 360)
      && syntax.isLoopback("127.0.0.1") && syntax.isTarget(TrimEndOf(Trim(input.target), '/'))
  {
    if NormalizeDomain(input.domain).Some? {
      NormalizeIdempotent(input.domain);
    }
    if MIN_PORT <= input.listenPort {
      DefaultHttpsPortIs(input.listenPort);
    }
    LowerIdChars(Trim(input.id));
    hide NormalizeDomain, DefaultHttpsPort, IdChar, Lower;
  }

  lemma LowerIdChars(id: string)
    ensures |Lower(id)| == |id|
    ensures (forall i :: 0 <= i < |id| ==> IdChar(Lower(id)[i])) <==>
            forall c :: c in id ==> c in LOWERCASE || c in UPPERCASE || c in DIGITS || c == '-'
  {
    Ranges();
    assert forall i :: 0 <= i < |id| ==> id[i] in id && Lower(id)[i] == LowerChar(id[i]);
    hide LOWERCASE, UPPERCASE, DIGITS;
  }

  /** The form that shows settings to the user. */
  function ToInput(s: Settings): Input {
    Input(s.id, s.domain, s.listenPort, s.target, s.allowedOrigins, Some(s.timeout), s.secured, s.httpsPort)
  }

  lemma NoSpaceInId(id: string)
    requires forall i :: 0 <= i < |id| ==> IdChar(id[i])
    ensures Trim(id) == id && Lower(id) == id
  {
    TrimIs(id, 0, |id|);
    assert id[0..|id|] == id && id[|id|..] == [] && id[..0] == [];
  }

  /** Settings made from input are made again from the form that shows them, exactly if the form's origins
      and target are in their normal form. */
  lemma FromInputAgain(input: Input, syntax: Syntax)
    requires FromInput(input, syntax).Ok?
    ensures var s := FromInput(input, syntax).value;
      FromInput(ToInput(s), syntax) == Ok(s) <==>
      && syntax.normalizeOrigins(s.allowedOrigins, s.domain) == Some(s.allowedOrigins)
      && TrimEndOf(Trim(s.target), '/') == s.target
  {
    var s := FromInput(input, syntax).value;
    FromInputFields(input, syntax);
    NormalizeIdempotent(input.domain);
    NoSpaceInId(s.id);
    assert Upper(s.id) == s.name;
    hide NormalizeDomain, DefaultHttpsPort, IdChar, Lower, Upper, Trim, TrimEndOf;
  }

  /** What normalizing stored settings changes. */
  lemma NormalizeFields(s: Settings)
    ensures var n := Normalize(s);
      && n == s.(httpsPort := n.httpsPort, timeout := n.timeout)
      && (s.timeout > 0 ==> n.timeout == s.timeout) && (s.timeout == 0 ==> n.timeout == 120)
      && (s.httpsPort == Some(443) || (s.secured && s.httpsPort == None) ==>
            n.httpsPort == DefaultHttpsPort(s.listenPort))
      && (s.httpsPort.Some? && s.httpsPort != Some(443) ==> n.httpsPort == s.httpsPort)
      && (!s.secured && s.httpsPort == None ==> n.httpsPort == None)
  {
  }

  // ---- side by side ----

  /** Two connections cannot both listen: the HTTP port of each, and the HTTPS port of each secured one. */
  predicate SharePort(a: Settings, b: Settings) {
    || a.listenPort == b.listenPort
    || (a.secured && a.httpsPort == Some(b.listenPort))
    || (b.secured && b.httpsPort == Some(a.listenPort))
    || (a.secured && b.secured && a.httpsPort.Some? && a.httpsPort == b.httpsPort)
  }

  lemma SharePortIs(a: Settings, b: Settings)
    ensures Ports(a) !! Ports(b) <==> !SharePort(a, b)
  {
    assert a.listenPort in Ports(a) && b.listenPort in Ports(b);
  }

  /** Why settings are not stored: an id, a port, a domain that is taken, in this order. */
  lemma ConflictIs(connections: Connections, s: Settings, replacing: Option<string>, syntax: Syntax)
    requires KeyedAndValid(connections, syntax) && replacing in {None, Some(s.id)}
    ensures var conflict := Conflict(connections, s, replacing);
      && (conflict == Some(DuplicateId) <==> s.id in connections && replacing == None)
      && (conflict == Some(PortConflict) <==>
            && (s.id in connections ==> replacing == Some(s.id))
            && exists id :: id in connections && id != s.id && SharePort(connections[id], s))
      && (conflict == Some(DomainConflict) <==>
            && (s.id in connections ==> replacing == Some(s.id))
            && (forall id :: id in connections && id != s.id ==> !SharePort(connections[id], s))
            && exists id :: id in connections && id != s.id && connections[id].domain == s.domain)
  {
    forall id | id in connections
      ensures connections[id].id == id
      ensures Ports(connections[id]) !! Ports(s) <==> !SharePort(connections[id], s)
    {
      SharePortIs(connections[id], s);
    }
    hide IsValid, IsNormal, Ports, SharePort;
  }

  // ---- what the operations leave ----

  /** Starting: what is up is left alone; otherwise the stored settings run, or have failed. */
  lemma StartedIs(r: Registry, id: string, bound: bool)
    requires id in r.connections
    ensures var after := Started(r, id, bound);
      && after.connections == r.connections
      && (id in r.running && !r.running[id].finished ==> after == r)
      && (!(id in r.running && !r.running[id].finished) ==>
            && after.running ==
               (if bound then r.running[id := Running(r.connections[id], false)] else r.running - {id})
            && after.failed == if bound then r.failed - {id} else r.failed + {id})
  {
    var after := Started(r, id, bound);
    if !(id in r.running && !r.running[id].finished) {
      assert (r.running - {id})[id := Running(r.connections[id], false)] ==
             r.running[id := Running(r.connections[id], false)];
    }
  }

  /** Stopping and removing. */
  lemma StoppedIs(r: Registry, id: string)
    ensures Stopped(r, id) == Registry(r.connections, r.running - {id}, r.failed - {id})
    ensures Removed(r, id) == Registry(r.connections - {id}, r.running - {id}, r.failed - {id})
  {
  }

  /** Exactly what is added, and what the registry then is. */
  lemma AddExactly(r: Registry, given: Settings, syntax: Syntax)
    requires Inv(r, syntax)
    ensures AddSettings(r, given, syntax).Ok? <==>
      && IsValid(Normalize(given), syntax) && given.id !in r.connections
      && forall id :: id in r.connections ==>
           !SharePort(r.connections[id], Normalize(given)) && r.connections[id].domain != given.domain
    ensures AddSettings(r, given, syntax).Ok? ==>
      AddSettings(r, given, syntax) ==
      Ok(Registry(r.connections[given.id := Normalize(given)], r.running, r.failed))
  {
    ConflictIs(r.connections, Normalize(given), None, syntax);
    hide IsValid, SharePort;
  }

  /** Nothing but the connection of the same id stands in the way. */
  predicate FreeFor(connections: Connections, s: Settings) {
    forall other :: other in connections && other != s.id ==>
                      !SharePort(connections[other], s) && connections[other].domain != s.domain
  }

  lemma FreeForIs(connections: Connections, s: Settings, syntax: Syntax)
    requires KeyedAndValid(connections, syntax)
    ensures Conflict(connections, s, Some(s.id)).None? <==> FreeFor(connections, s)
  {
    ConflictIs(connections, s, Some(s.id), syntax);
    hide KeyedAndValid, SharePort;
  }

  /** What an update leaves, given what the input came to. */
  ghost predicate UpdateLeaves(
    r: Registry, id: string, parsed: Result<Settings, Error>, second: bool, result: Result<Updated, Error>,
    after: Registry)
  {
    match result
    case Ok(updated) =>
      && id in r.connections && parsed.Ok?
      && updated == Updated(r.connections[id], id in r.running)
      && after.connections == r.connections[id := parsed.value]
      && after.running == (if id in r.running then r.running[id := Running(parsed.value, false)] else r.running)
      && after.failed == r.failed - {id}
    case Err(BindFailed) =>
      && id in r.connections && after.connections == r.connections
      && after.running ==
         (if second then r.running[id := Running(r.connections[id], false)] else r.running - {id})
      && after.failed == (if second then r.failed - {id} else r.failed + {id})
    case Err(_) => after == r
  }

  lemma UpdateToExactly(
    r: Registry, id: string, parsed: Result<Settings, Error>, syntax: Syntax, first: bool, second: bool)
    requires KeyedAndValid(r.connections, syntax) && (parsed.Err? ==> parsed.error == Invalid)
    ensures var (result, after) := UpdateTo(r, id, parsed, first, second);
      && (result.Ok? <==>
            && id in r.connections && parsed.Ok? && parsed.value.id == id && FreeFor(r.connections, parsed.value)
            && (id in r.running ==> first))
      && (result == Err(BindFailed) <==>
            && id in r.connections && parsed.Ok? && parsed.value.id == id && FreeFor(r.connections, parsed.value)
            && id in r.running && !first)
      && UpdateLeaves(r, id, parsed, second, result, after)
  {
    if id in r.connections && parsed.Ok? && parsed.value.id == id {
      var s := parsed.value;
      FreeForIs(r.connections, s, syntax);
      hide Conflict, FreeFor, KeyedAndValid;
      if Conflict(r.connections, s, Some(id)).None? {
        if id in r.running {
          if first {
            ReplacedIs(r, s, true);
          } else {
            PutBackIs(r, id, s, second);
          }
        } else {
          assert r.running - {id} == r.running;
        }
      }
    }
  }

  lemma ReplacedIs(r: Registry, s: Settings, bound: bool)
    ensures Stored(r, s) == Registry(r.connections[s.id := s], r.running - {s.id}, r.failed - {s.id})
    ensures Started(Stored(r, s), s.id, bound) ==
            Registry(
              r.connections[s.id := s],
              if bound then r.running[s.id := Running(s, false)] else r.running - {s.id},
              if bound then r.failed - {s.id} else r.failed + {s.id})
  {
    StartedIs(Stored(r, s), s.id, bound);
    assert (r.running - {s.id})[s.id := Running(s, false)] == r.running[s.id := Running(s, false)];
    assert r.running - {s.id} - {s.id} == r.running - {s.id};
  }

  lemma PutBackIs(r: Registry, id: string, s: Settings, bound: bool)
    requires s.id == id && id in r.connections
    ensures Started(Stored(r, s).(connections := r.connections), id, bound) ==
            Registry(
              r.connections,
              if bound then r.running[id := Running(r.connections[id], false)] else r.running - {id},
              if bound then r.failed - {id} else r.failed + {id})
  {
    StartedIs(Stored(r, s).(connections := r.connections), id, bound);
    assert (r.running - {id})[id := Running(r.connections[id], false)] ==
           r.running[id := Running(r.connections[id], false)];
    assert r.running - {id} - {id} == r.running - {id};
  }

  /** Exactly which updates succeed, which fail on their ports, and what each outcome leaves. */
  lemma UpdateExactly(r: Registry, id: string, input: Input, syntax: Syntax, first: bool, second: bool)
    requires Inv(r, syntax)
    ensures var (result, after) := Update(r, id, input, syntax, first, second);
      var parsed := FromInput(input, syntax);
      && (result.Ok? <==>
            && id in r.connections && parsed.Ok? && parsed.value.id == id && FreeFor(r.connections, parsed.value)
            && (id in r.running ==> first))
      && (result == Err(BindFailed) <==>
            && id in r.connections && parsed.Ok? && parsed.value.id == id && FreeFor(r.connections, parsed.value)
            && id in r.running && !first)
      && UpdateLeaves(r, id, parsed, second, result, after)
  {
    var parsed := FromInput(input, syntax);
    hide FromInput, UpdateTo, KeyedAndValid;
    UpdateToExactly(r, id, parsed, syntax, first, second);
  }

  /** Undoing an update, likewise. */
  lemma RestoreUpdateExactly(r: Registry, given: Settings, run: bool, syntax: Syntax, bound: bool)
    requires Inv(r, syntax)
    ensures var (result, after) := RestoreUpdate(r, given, run, syntax, bound);
      var s := Normalize(given);
      && (result.Ok? <==> IsValid(s, syntax) && given.id in r.connections && FreeFor(r.connections, s))
      && (result.Err? ==> after == r)
      && (result.Ok? ==>
            && after.connections == r.connections[given.id := s]
            && after.running ==
               (if run && bound then r.running[given.id := Running(s, false)] else r.running - {given.id})
            && after.failed == if run && !bound then r.failed + {given.id} else r.failed - {given.id})
  {
    var s := Normalize(given);
    NormalizeFields(given);
    FreeForIs(r.connections, s, syntax);
    ReplacedIs(r, s, bound);
    hide Conflict, FreeFor, KeyedAndValid, IsValid, Normalize, Started, Stored;
  }

  // ---- the order of the checks ----

  /** The uniqueness check, if it stands in the way. */
  ghost function ConflictGuard(connections: Connections, s: Settings, replacing: Option<string>): Guard<Error> {
    var conflict := Conflict(connections, s, replacing);
    Guard(conflict.None?, if conflict.Some? then conflict.value else Invalid)
  }

  ghost function AddGuards(r: Registry, given: Settings, syntax: Syntax): seq<Guard<Error>> {
    [Guard(IsValid(Normalize(given), syntax), Invalid), ConflictGuard(r.connections, Normalize(given), None)]
  }

  lemma AddAnswers(r: Registry, given: Settings, syntax: Syntax)
    ensures Answers(AddGuards(r, given, syntax), AddSettings(r, given, syntax))
  {
    var guards := AddGuards(r, given, syntax);
    hide IsValid, Normalize, Conflict;
    assert guards[0].error == Invalid && guards[1] == ConflictGuard(r.connections, Normalize(given), None);
  }

  ghost function UpdateGuards(
    r: Registry, id: string, parsed: Result<Settings, Error>, first: bool): seq<Guard<Error>>
  {
    [Guard(id in r.connections, UnknownId),
     Guard(parsed.Ok?, if parsed.Err? then parsed.error else Invalid),
     Guard(parsed.Ok? ==> parsed.value.id == id, IdChanged),
     if parsed.Ok? then ConflictGuard(r.connections, parsed.value, Some(id)) else Guard(true, Invalid),
     Guard(id in r.running ==> first, BindFailed)]
  }

  lemma UpdateAnswers(r: Registry, id: string, parsed: Result<Settings, Error>, first: bool, second: bool)
    ensures Answers(UpdateGuards(r, id, parsed, first), UpdateTo(r, id, parsed, first, second).0)
  {
    var guards := UpdateGuards(r, id, parsed, first);
    hide Conflict, Started, Stored;
    assert guards[0].error == UnknownId && guards[2].error == IdChanged && guards[4].error == BindFailed;
    assert guards[1].holds <==> parsed.Ok?;
    assert parsed.Ok? ==> guards[3] == ConflictGuard(r.connections, parsed.value, Some(id));
  }

  ghost function RestoreGuards(r: Registry, given: Settings, syntax: Syntax): seq<Guard<Error>> {
    var s := Normalize(given);
    [Guard(IsValid(s, syntax), Invalid),
     ConflictGuard(r.connections, s, Some(s.id)),
     Guard(s.id in r.connections, UnknownId)]
  }

  lemma RestoreAnswers(r: Registry, given: Settings, run: bool, syntax: Syntax, bound: bool)
    ensures Answers(RestoreGuards(r, given, syntax), RestoreUpdate(r, given, run, syntax, bound).0)
  {
    var guards := RestoreGuards(r, given, syntax);
    hide Conflict, Started, Stored, IsValid, Normalize;
    assert guards[0].error == Invalid && guards[2].error == UnknownId;
    assert guards[1] == ConflictGuard(r.connections, Normalize(given), Some(Normalize(given).id));
  }

  /** The events of a run that concern one connection alone. */
  lemma EventLeaves(r: Registry, id: string, bound: bool, syntax: Syntax)
    ensures Apply(r, Event.Remove(id), syntax) ==
            if id in r.connections then Registry(r.connections - {id}, r.running - {id}, r.failed - {id}) else r
    ensures Apply(r, Event.Stop(id), syntax) ==
            if id in r.connections then Registry(r.connections, r.running - {id}, r.failed - {id}) else r
    ensures Apply(r, Event.Start(id, bound), syntax) == if id in r.connections then Started(r, id, bound) else r
    ensures Apply(r, TaskEnds(id), syntax) ==
            if id in r.running then
              Registry(r.connections, r.running[id := Running(r.running[id].settings, true)], r.failed)
            else
              r
  {
  }

  /** Over every run from a new manager, in terms of the fields: who is listening where. */
  lemma RunListeners(events: seq<Event>, syntax: Syntax)
    ensures var r := Run(EMPTY, events, syntax);
      && (forall a, b :: a in r.connections && b in r.connections && a != b ==>
            !SharePort(r.connections[a], r.connections[b]) && r.connections[a].domain != r.connections[b].domain)
      && (forall id :: id in r.connections ==>
            var s := r.connections[id];
            && s.id == id && 1024 <= s.listenPort && 1 <= s.timeout <= 360
            && (s.secured ==> s.httpsPort.Some?)
            && (s.httpsPort.Some? ==> 1024 <= s.httpsPort.value && s.httpsPort.value != s.listenPort))
      && (forall id :: id in r.running ==> id in r.connections && r.running[id].settings == r.connections[id])
  {
    RunFromEmpty(events, syntax);
    var r := Run(EMPTY, events, syntax);
    forall a, b | a in r.connections && b in r.connections && a != b
      ensures !SharePort(r.connections[a], r.connections[b])
    {
      SharePortIs(r.connections[a], r.connections[b]);
      assert Apart(r.connections[a], r.connections[b]);
    }
    hide NormalizeDomain, SharePort, Ports, Run;
  }
}

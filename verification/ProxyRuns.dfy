/** What every run of the proxy manager keeps, and what its operations undo. */
module ProxyRuns {
  import opened Wrappers
  import opened Text
  import opened Domains
  import opened Proxy

  predicate KeyedAndValid(connections: Connections, syntax: Syntax) {
    forall id :: id in connections ==>
                   connections[id].id == id && IsValid(connections[id], syntax) && IsNormal(connections[id])
  }

  predicate Apart(a: Settings, b: Settings) {
    Ports(a) !! Ports(b) && a.domain != b.domain
  }

  predicate PairwiseApart(connections: Connections) {
    forall a, b :: a in connections && b in connections && a != b ==> Apart(connections[a], connections[b])
  }

  /** The registry's invariant: connections keyed by their own id, valid, in normal form, with ports
      and domains of their own; running and failed ones are stored ones, no connection is both, and
      what runs is what is stored. */
  predicate Inv(r: Registry, syntax: Syntax) {
    && KeyedAndValid(r.connections, syntax)
    && PairwiseApart(r.connections)
    && r.running.Keys <= r.connections.Keys && r.failed <= r.connections.Keys
    && r.running.Keys !! r.failed
    && forall id :: id in r.running ==> r.running[id].settings == r.connections[id]
  }

  // ---- single operations ----

  /** No conflict means apart from every connection that stays. */
  lemma NoConflict(connections: Connections, s: Settings, replacing: Option<string>, syntax: Syntax)
    requires KeyedAndValid(connections, syntax)
    requires replacing in {None, Some(s.id)}
    ensures Conflict(connections, s, replacing).None? <==>
            && (s.id in connections ==> replacing == Some(s.id))
            && (forall id :: id in connections && id != s.id ==> Apart(connections[id], s))
  {
    hide IsValid, IsNormal, Ports;
    if Conflict(connections, s, replacing).None? {
      forall id | id in connections && id != s.id
        ensures Apart(connections[id], s)
      {
        assert connections[id].id == id;
      }
    } else if Conflict(connections, s, replacing) != Some(DuplicateId) {
      var id :| id in connections && replacing != Some(connections[id].id) &&
                !Apart(connections[id], s);
      assert connections[id].id == id;
    }
  }

  lemma StoredApart(connections: Connections, s: Settings, replacing: Option<string>, syntax: Syntax)
    requires KeyedAndValid(connections, syntax) && PairwiseApart(connections)
    requires IsValid(s, syntax) && IsNormal(s)
    requires replacing in {None, Some(s.id)} && Conflict(connections, s, replacing).None?
    ensures KeyedAndValid(connections[s.id := s], syntax) && PairwiseApart(connections[s.id := s])
  {
    NoConflict(connections, s, replacing, syntax);
  }

  lemma AddSettingsInv(r: Registry, given: Settings, syntax: Syntax)
    requires Inv(r, syntax) && AddSettings(r, given, syntax).Ok?
    ensures Inv(AddSettings(r, given, syntax).value, syntax)
  {
    NormalForm(given, syntax);
    StoredApart(r.connections, Normalize(given), None, syntax);
  }

  lemma StoredInv(r: Registry, s: Settings, syntax: Syntax)
    requires Inv(r, syntax) && IsValid(s, syntax) && IsNormal(s)
    requires Conflict(r.connections, s, Some(s.id)).None?
    ensures Inv(Stored(r, s), syntax)
  {
    StoredApart(r.connections, s, Some(s.id), syntax);
  }

  lemma StartedInv(r: Registry, id: string, bound: bool, syntax: Syntax)
    requires Inv(r, syntax) && id in r.connections
    ensures Inv(Started(r, id, bound), syntax)
  {
  }

  lemma UpdateToInv(
    r: Registry, id: string, parsed: Result<Settings, Error>, syntax: Syntax, first: bool, second: bool)
    requires Inv(r, syntax)
    requires parsed.Ok? ==> IsValid(parsed.value, syntax) && IsNormal(parsed.value)
    ensures Inv(UpdateTo(r, id, parsed, first, second).1, syntax)
  {
    hide IsValid, IsNormal, Conflict, Apart;
    var (result, after) := UpdateTo(r, id, parsed, first, second);
    if result.Ok? || result.error == BindFailed {
      if id in r.connections && parsed.Ok? && Conflict(r.connections, parsed.value, Some(id)).None? &&
         parsed.value.id == id {
        var s := parsed.value;
        StoredInv(r, s, syntax);
        if result.Ok? && result.value.wasRunning {
          StartedInv(Stored(r, s), id, true, syntax);
        } else if result.Err? {
          assert Stored(r, s).(connections := r.connections) == Stopped(r, id);
          StartedInv(Stopped(r, id), id, second, syntax);
        }
      }
    }
  }

  lemma UpdateInv(r: Registry, id: string, input: Input, syntax: Syntax, first: bool, second: bool)
    requires Inv(r, syntax)
    ensures Inv(Update(r, id, input, syntax, first, second).1, syntax)
  {
    if FromInput(input, syntax).Ok? {
      FromInputNormal(input, syntax);
    }
    hide FromInput, IsValid, IsNormal, Inv, UpdateTo;
    UpdateToInv(r, id, FromInput(input, syntax), syntax, first, second);
  }

  lemma RestoreUpdateInv(r: Registry, given: Settings, run: bool, syntax: Syntax, bound: bool)
    requires Inv(r, syntax)
    ensures Inv(RestoreUpdate(r, given, run, syntax, bound).1, syntax)
  {
    var (result, after) := RestoreUpdate(r, given, run, syntax, bound);
    if result.Ok? {
      var s := Normalize(given);
      NormalForm(given, syntax);
      StoredInv(r, s, syntax);
      if run {
        StartedInv(Stored(r, s), s.id, bound, syntax);
      }
    }
  }

  // ---- runs ----

  /** `bound`, `first` and `second` are what binding a port came to; `TaskEnds` is a proxy task that
      stops by itself. */
  datatype Event =
    | AddInput(input: Input)
    | Restore(settings: Settings)
    | UpdateInput(id: string, input: Input, first: bool, second: bool)
    | UndoUpdate(settings: Settings, run: bool, bound: bool)
    | Remove(id: string)
    | Start(id: string, bound: bool)
    | Stop(id: string)
    | TaskEnds(id: string)

  function OrSame(result: Result<Registry, Error>, r: Registry): Registry {
    if result.Ok? then result.value else r
  }

  function Apply(r: Registry, e: Event, syntax: Syntax): Registry {
    match e
    case AddInput(input) => OrSame(Add(r, input, syntax), r)
    case Restore(settings) => OrSame(AddSettings(r, settings, syntax), r)
    case UpdateInput(id, input, first, second) => Update(r, id, input, syntax, first, second).1
    case UndoUpdate(settings, run, bound) => RestoreUpdate(r, settings, run, syntax, bound).1
    case Remove(id) => if id in r.connections then Removed(r, id) else r
    case Start(id, bound) => if id in r.connections then Started(r, id, bound) else r
    case Stop(id) => if id in r.connections then Stopped(r, id) else r
    case TaskEnds(id) =>
      if id in r.running then r.(running := r.running[id := r.running[id].(finished := true)]) else r
  }

  function Run(r: Registry, events: seq<Event>, syntax: Syntax): Registry
    decreases |events|
  {
    if events == [] then r else Run(Apply(r, events[0], syntax), events[1..], syntax)
  }

  lemma ApplyInv(r: Registry, e: Event, syntax: Syntax)
    requires Inv(r, syntax)
    ensures Inv(Apply(r, e, syntax), syntax)
  {
    hide IsValid, IsNormal, FromInput, Apart, Conflict, Update, RestoreUpdate, AddSettings;
    match e {
      case AddInput(input) =>
        if Add(r, input, syntax).Ok? {
          AddSettingsInv(r, FromInput(input, syntax).value, syntax);
        }
      case Restore(settings) =>
        if AddSettings(r, settings, syntax).Ok? {
          AddSettingsInv(r, settings, syntax);
        }
      case UpdateInput(id, input, first, second) => UpdateInv(r, id, input, syntax, first, second);
      case UndoUpdate(settings, run, bound) => RestoreUpdateInv(r, settings, run, syntax, bound);
      case Start(id, bound) =>
        if id in r.connections {
          StartedInv(r, id, bound, syntax);
        }
      case _ =>
    }
  }

  /** Over every run from an empty manager, whatever binding comes to: the ports in use are pairwise
      distinct, as are the domains; keys are ids; running and failed are disjoint and stored; all
      settings are valid and in normal form; and what runs is what is stored. */
  lemma {:induction false} RunInv(r: Registry, events: seq<Event>, syntax: Syntax)
    requires Inv(r, syntax)
    ensures Inv(Run(r, events, syntax), syntax)
    decreases |events|
  {
    if events != [] {
      ApplyInv(r, events[0], syntax);
      RunInv(Apply(r, events[0], syntax), events[1..], syntax);
    }
  }

  lemma RunFromEmpty(events: seq<Event>, syntax: Syntax)
    ensures Inv(Run(EMPTY, events, syntax), syntax)
  {
    RunInv(EMPTY, events, syntax);
  }

  // ---- updates and their undoing ----

  /** A failed update leaves the stored settings alone; it leaves everything alone unless it got as
      far as the ports. */
  lemma FailedUpdateKeeps(r: Registry, id: string, input: Input, syntax: Syntax, first: bool, second: bool)
    requires Update(r, id, input, syntax, first, second).0.Err?
    ensures var (result, after) := Update(r, id, input, syntax, first, second);
            && after.connections == r.connections
            && (result.error != BindFailed ==> after == r)
            && (result.error == BindFailed ==>
                  id in r.running && !first &&
                  after.running.Keys == (if second then r.running.Keys else r.running.Keys - {id}))
  {
    hide FromInput, Conflict;
  }

  lemma StillFree(before: Connections, after: Connections, id: string, syntax: Syntax)
    requires KeyedAndValid(before, syntax) && PairwiseApart(before) && KeyedAndValid(after, syntax)
    requires id in before && id in after && after == before[id := after[id]]
    ensures Normalize(before[id]) == before[id] && IsValid(before[id], syntax)
    ensures Conflict(after, before[id], Some(id)).None?
  {
    hide Apart;
    NormalForm(before[id], syntax);
    forall other | other in after && other != id
      ensures Apart(after[other], before[id])
    {
      assert after[other] == before[other];
    }
    NoConflict(after, before[id], Some(id), syntax);
  }

  /** Settings that were stored can be put back when nothing but their connection changed. */
  lemma PutBack(r: Registry, after: Registry, id: string, run: bool, syntax: Syntax, bound: bool)
    requires Inv(r, syntax) && KeyedAndValid(after.connections, syntax)
    requires id in r.connections && id in after.connections
    requires after.connections == r.connections[id := after.connections[id]]
    ensures var previous := r.connections[id];
            RestoreUpdate(after, previous, run, syntax, bound) ==
            (Ok(()), if run then Started(Stored(after, previous), id, bound) else Stored(after, previous))
  {
    StillFree(r.connections, after.connections, id, syntax);
    hide Conflict, PairwiseApart, IsValid, IsNormal, Normalize, Started;
  }

  /** Storing `s`, then the previous settings again, and restarting what ran. */
  lemma ThereAndBack(r: Registry, id: string, s: Settings, bound: bool)
    requires id in r.connections && s.id == id && r.connections[id].id == id
    requires r.failed !! r.running.Keys
    requires IsUp(r, id) ==> r.running[id].settings == r.connections[id]
    ensures var was := id in r.running;
            var stored := Stored(r, s);
            var after := if was then Started(stored, id, true) else stored;
            var back := Stored(after, r.connections[id]);
            var restored := if was then Started(back, id, bound) else back;
            && after.connections == r.connections[id := s]
            && restored.connections == r.connections
            && (bound ==> restored.running.Keys == r.running.Keys)
            && (bound && IsUp(r, id) ==> restored.running == r.running)
  {
    var was := id in r.running;
    var stored := Stored(r, s);
    assert stored.running == r.running - {id};
    var after := if was then Started(stored, id, true) else stored;
    var back := Stored(after, r.connections[id]);
    assert back.running == r.running - {id};
    assert back.connections == r.connections;
  }

  lemma UpdateToUndone(
    r: Registry, id: string, parsed: Result<Settings, Error>, syntax: Syntax, first: bool, second: bool, bound: bool)
    requires Inv(r, syntax) && UpdateTo(r, id, parsed, first, second).0.Ok?
    requires parsed.Ok? ==> IsValid(parsed.value, syntax) && IsNormal(parsed.value)
    ensures var (result, after) := UpdateTo(r, id, parsed, first, second);
            var (undone, restored) :=
              RestoreUpdate(after, result.value.previous, result.value.wasRunning, syntax, bound);
            && undone == Ok(())
            && restored.connections == r.connections
            && (bound ==> restored.running.Keys == r.running.Keys)
            && (bound && IsUp(r, id) ==> restored.running == r.running)
  {
    UpdateToInv(r, id, parsed, syntax, first, second);
    hide IsValid, IsNormal, Conflict, RestoreUpdate, PairwiseApart, Started, Stored;
    var (result, after) := UpdateTo(r, id, parsed, first, second);
    ThereAndBack(r, id, parsed.value, bound);
    PutBack(r, after, id, result.value.wasRunning, syntax, bound);
  }

  /** A successful update is undone by restoring what it returned. */
  lemma UpdateUndone(
    r: Registry, id: string, input: Input, syntax: Syntax, first: bool, second: bool, bound: bool)
    requires Inv(r, syntax) && Update(r, id, input, syntax, first, second).0.Ok?
    ensures var (result, after) := Update(r, id, input, syntax, first, second);
            var (undone, restored) :=
              RestoreUpdate(after, result.value.previous, result.value.wasRunning, syntax, bound);
            && undone == Ok(())
            && restored.connections == r.connections
            && (bound ==> restored.running.Keys == r.running.Keys)
            && (bound && IsUp(r, id) ==> restored.running == r.running)
  {
    if FromInput(input, syntax).Ok? {
      FromInputNormal(input, syntax);
    }
    hide FromInput, IsValid, IsNormal, Inv, UpdateTo, RestoreUpdate;
    UpdateToUndone(r, id, FromInput(input, syntax), syntax, first, second, bound);
  }

  // ---- rebuilding ----

  function AddAll(r: Registry, list: seq<Settings>, syntax: Syntax): Result<Registry, Error>
    decreases |list|
  {
    if list == [] then
      Ok(r)
    else
      match AddSettings(r, list[0], syntax)
      case Err(e) => Err(e)
      case Ok(next) => AddAll(next, list[1..], syntax)
  }

  function Ids(list: seq<Settings>): set<string> {
    if list == [] then {} else {list[0].id} + Ids(list[1..])
  }

  lemma {:induction false} IdsOf(list: seq<Settings>, i: nat)
    requires i < |list|
    ensures list[i].id in Ids(list)
  {
    if i > 0 {
      IdsOf(list[1..], i - 1);
    }
  }

  lemma {:induction false} IdsAppend(list: seq<Settings>, s: Settings)
    ensures Ids(list + [s]) == Ids(list) + {s.id}
  {
    if list == [] {
      assert ([] + [s])[1..] == [];
    } else {
      assert (list + [s])[1..] == list[1..] + [s];
      IdsAppend(list[1..], s);
    }
  }

  /** The list holds each connection once. */
  predicate Lists(list: seq<Settings>, connections: Connections) {
    && (forall i :: 0 <= i < |list| ==> list[i].id in connections && connections[list[i].id] == list[i])
    && (forall i, j :: 0 <= i < j < |list| ==> list[i].id != list[j].id)
    && Ids(list) == connections.Keys
  }

  predicate PartOf(done: Connections, connections: Connections) {
    forall id :: id in done ==> id in connections && done[id] == connections[id]
  }

  lemma AddOne(done: Connections, s: Settings, connections: Connections, syntax: Syntax)
    requires KeyedAndValid(connections, syntax) && PairwiseApart(connections)
    requires PartOf(done, connections)
    requires s.id in connections && connections[s.id] == s && s.id !in done
    ensures AddSettings(Registry(done, map[], {}), s, syntax) == Ok(Registry(done[s.id := s], map[], {}))
  {
    NormalForm(s, syntax);
    NoConflict(done, s, None, syntax);
    hide Conflict, PairwiseApart;
  }

  lemma {:induction false} AddRest(
    done: Connections, list: seq<Settings>, connections: Connections, syntax: Syntax)
    requires KeyedAndValid(connections, syntax) && PairwiseApart(connections)
    requires PartOf(done, connections)
    requires forall i :: 0 <= i < |list| ==>
                           list[i].id in connections && connections[list[i].id] == list[i] &&
                           list[i].id !in done
    requires forall i, j :: 0 <= i < j < |list| ==> list[i].id != list[j].id
    requires connections.Keys <= done.Keys + Ids(list)
    ensures AddAll(Registry(done, map[], {}), list, syntax) == Ok(Registry(connections, map[], {}))
    decreases |list|
  {
    hide KeyedAndValid, PairwiseApart, AddSettings;
    if list == [] {
      assert done == connections;
    } else {
      AddOne(done, list[0], connections, syntax);
      AddRest(done[list[0].id := list[0]], list[1..], connections, syntax);
    }
  }

  /** A list under construction: `rest` is what it still lacks, none of it with a lower port. */
  predicate Listing(list: seq<Settings>, rest: set<string>, connections: Connections) {
    && Ids(list) + rest == connections.Keys && Ids(list) !! rest
    && (forall i :: 0 <= i < |list| ==> list[i].id in connections && connections[list[i].id] == list[i])
    && (forall i, j :: 0 <= i < j < |list| ==> list[i].id != list[j].id)
    && (forall i, j :: 0 <= i < j < |list| ==> list[i].listenPort <= list[j].listenPort)
    && (forall i, id :: 0 <= i < |list| && id in rest ==> list[i].listenPort <= connections[id].listenPort)
  }

  lemma ListingGrows(list: seq<Settings>, rest: set<string>, connections: Connections, id: string)
    requires Listing(list, rest, connections) && id in rest && connections[id].id == id
    requires forall other :: other in rest ==> connections[id].listenPort <= connections[other].listenPort
    ensures Listing(list + [connections[id]], rest - {id}, connections)
  {
    var s := connections[id];
    var longer := list + [s];
    IdsAppend(list, s);
    forall i | 0 <= i < |longer|
      ensures longer[i] == if i < |list| then list[i] else s
      ensures i < |list| ==> longer[i].id != id
    {
      if i < |list| {
        IdsOf(list, i);
      }
    }
    hide Ids;
  }

  /** A new manager made from a manager's connections stores the same settings, in whatever order they
      are listed. */
  lemma Rebuild(r: Registry, list: seq<Settings>, syntax: Syntax)
    requires Inv(r, syntax) && Lists(list, r.connections)
    ensures AddAll(EMPTY, list, syntax) == Ok(Registry(r.connections, map[], {}))
  {
    AddRest(map[], list, r.connections, syntax);
  }

  // ---- domains ----

  predicate IsNormalDomain(domain: string) {
    NormalizeDomain(domain) == Some(domain)
  }

  predicate NormalDomains(connections: Connections) {
    forall id :: id in connections ==> IsNormalDomain(connections[id].domain)
  }

  predicate GivesNormalDomain(e: Event) {
    (e.Restore? || e.UndoUpdate?) ==> IsNormalDomain(e.settings.domain)
  }

  /** Domains from input are in normal form; settings that are stored as given keep what they bring. */
  lemma {:induction false} RunNormalDomains(r: Registry, events: seq<Event>, syntax: Syntax)
    requires NormalDomains(r.connections)
    requires forall i :: 0 <= i < |events| ==> GivesNormalDomain(events[i])
    ensures NormalDomains(Run(r, events, syntax).connections)
    decreases |events|
  {
    if events != [] {
      ApplyNormalDomains(r, events[0], syntax);
      RunNormalDomains(Apply(r, events[0], syntax), events[1..], syntax);
    }
  }

  lemma ApplyNormalDomains(r: Registry, e: Event, syntax: Syntax)
    requires NormalDomains(r.connections) && GivesNormalDomain(e)
    ensures NormalDomains(Apply(r, e, syntax).connections)
  {
    hide IsValid, Conflict, NormalizeDomain;
    match e {
      case AddInput(input) =>
        if FromInput(input, syntax).Ok? {
          FromInputDomain(input, syntax);
          AddSettingsDomains(r, FromInput(input, syntax).value, syntax);
        }
      case Restore(settings) => AddSettingsDomains(r, settings, syntax);
      case UpdateInput(id, input, first, second) =>
        if FromInput(input, syntax).Ok? {
          FromInputDomain(input, syntax);
        }
        UpdateToDomains(r, id, FromInput(input, syntax), first, second);
      case UndoUpdate(settings, run, bound) => RestoreUpdateDomains(r, settings, run, syntax, bound);
      case _ =>
    }
    hide IsNormalDomain, FromInput, AddSettings, UpdateTo, RestoreUpdate;
  }

  lemma AddSettingsDomains(r: Registry, given: Settings, syntax: Syntax)
    requires NormalDomains(r.connections) && IsNormalDomain(given.domain)
    ensures AddSettings(r, given, syntax).Ok? ==> NormalDomains(AddSettings(r, given, syntax).value.connections)
  {
    hide IsNormalDomain, IsValid, Conflict;
  }

  lemma RestoreUpdateDomains(r: Registry, given: Settings, run: bool, syntax: Syntax, bound: bool)
    requires NormalDomains(r.connections) && IsNormalDomain(given.domain)
    ensures NormalDomains(RestoreUpdate(r, given, run, syntax, bound).1.connections)
  {
    hide IsNormalDomain, IsValid, Conflict;
  }

  lemma FromInputDomain(input: Input, syntax: Syntax)
    requires FromInput(input, syntax).Ok?
    ensures IsNormalDomain(FromInput(input, syntax).value.domain)
  {
    FromInputNormal(input, syntax);
  }

  lemma UpdateToDomains(r: Registry, id: string, parsed: Result<Settings, Error>, first: bool, second: bool)
    requires NormalDomains(r.connections) && (parsed.Ok? ==> IsNormalDomain(parsed.value.domain))
    ensures NormalDomains(UpdateTo(r, id, parsed, first, second).1.connections)
  {
    hide IsNormalDomain, Conflict;
  }

  // ---- host names ----

  /** No two connections serve one host name. Domains are compared as they are written. */
  predicate HostsDistinct(connections: Connections) {
    forall a, b :: a in connections && b in connections && a != b ==>
                     NormalizeDomain(connections[a].domain) != NormalizeDomain(connections[b].domain)
  }

  lemma NormalHosts(connections: Connections)
    requires NormalDomains(connections) && PairwiseApart(connections)
    ensures HostsDistinct(connections)
  {
    hide NormalizeDomain, Ports;
  }

  /** There is room for a further connection. */
  predicate Room(connections: Connections, id: string, port: Port) {
    && id !in connections && id != "" && (forall i :: 0 <= i < |id| ==> IdChar(id[i]))
    && MIN_PORT <= port && forall other :: other in connections ==> port !in Ports(connections[other])
  }

  /** A further connection, written in normal form, for the host name of a stored one. */
  function Double(s: Settings, id: string, port: Port): Settings
    requires NormalizeDomain(s.domain).Some?
  {
    s.(id := id, listenPort := port, domain := NormalizeDomain(s.domain).value, secured := false, httpsPort := None)
  }

  lemma DoubleValid(s: Settings, id: string, port: Port, syntax: Syntax)
    requires IsValid(s, syntax) && IsNormal(s) && Room(map[], id, port)
    ensures var d := Double(s, id, port); IsValid(d, syntax) && Normalize(d) == d && IsNormalDomain(d.domain)
  {
    NormalizeIdempotent(s.domain);
    hide NormalizeDomain;
  }

  lemma DoubleStored(r: Registry, twin: string, id: string, port: Port, syntax: Syntax)
    requires Inv(r, syntax) && HostsDistinct(r.connections) && Room(r.connections, id, port)
    requires twin in r.connections && !IsNormalDomain(r.connections[twin].domain)
    ensures var s := r.connections[twin];
      && NormalizeDomain(s.domain).Some? && GivesNormalDomain(Restore(Double(s, id, port)))
      && !HostsDistinct(Apply(r, Restore(Double(s, id, port)), syntax).connections)
  {
    var s := r.connections[twin];
    assert IsValid(s, syntax) && IsNormal(s);
    DoubleValid(s, id, port, syntax);
    var d := Double(s, id, port);
    assert Ports(d) == {port};
    hide NormalizeDomain, IsValid, IsNormal, Ports, Normalize, Double;
    forall other | other in r.connections
      ensures Apart(r.connections[other], d)
    {
      assert port !in Ports(r.connections[other]);
      if other != twin {
        assert NormalizeDomain(r.connections[other].domain) != NormalizeDomain(s.domain);
      }
    }
    NoConflict(r.connections, d, None, syntax);
    hide Apart, PairwiseApart, Conflict;
    var after := AddSettings(r, d, syntax).value.connections;
    assert after == r.connections[id := d];
    assert NormalizeDomain(after[twin].domain) == NormalizeDomain(after[id].domain);
  }

  /** From a registry with distinct host names and room for one more connection: host names stay distinct
      over every run in which settings that are stored as given bring normal domains, exactly if the
      domains stored already are normal. */
  lemma HostsStayDistinct(r: Registry, id: string, port: Port, syntax: Syntax)
    requires Inv(r, syntax) && HostsDistinct(r.connections) && Room(r.connections, id, port)
    ensures NormalDomains(r.connections) <==>
      forall events | (forall i :: 0 <= i < |events| ==> GivesNormalDomain(events[i])) ::
        HostsDistinct(Run(r, events, syntax).connections)
  {
    hide NormalizeDomain, Inv, HostsDistinct, IsNormalDomain, Room, Apply, GivesNormalDomain;
    if NormalDomains(r.connections) {
      forall events | (forall i :: 0 <= i < |events| ==> GivesNormalDomain(events[i]))
        ensures HostsDistinct(Run(r, events, syntax).connections)
      {
        RunInv(r, events, syntax);
        RunNormalDomains(r, events, syntax);
        InvApart(Run(r, events, syntax), syntax);
        NormalHosts(Run(r, events, syntax).connections);
      }
    } else {
      var twin :| twin in r.connections && !IsNormalDomain(r.connections[twin].domain);
      DoubleStored(r, twin, id, port, syntax);
      var e := Restore(Double(r.connections[twin], id, port));
      assert [e][1..] == [] && Run(Apply(r, e, syntax), [], syntax) == Apply(r, e, syntax);
      assert Run(r, [e], syntax) == Apply(r, e, syntax);
    }
  }

  lemma InvApart(r: Registry, syntax: Syntax)
    requires Inv(r, syntax)
    ensures PairwiseApart(r.connections)
  {
  }

  /** Adding one connection keeps host names distinct exactly if none stored has the same host name; the
      program compares what is written instead. */
  lemma AddKeepsHosts(r: Registry, given: Settings, syntax: Syntax)
    requires Inv(r, syntax) && HostsDistinct(r.connections) && AddSettings(r, given, syntax).Ok?
    ensures HostsDistinct(AddSettings(r, given, syntax).value.connections) <==>
      forall id :: id in r.connections ==>
                     NormalizeDomain(r.connections[id].domain) != NormalizeDomain(given.domain)
  {
    AddedAre(r, given, syntax);
    hide *;
    OneMoreHost(r.connections, Normalize(given));
  }

  lemma AddedAre(r: Registry, given: Settings, syntax: Syntax)
    requires AddSettings(r, given, syntax).Ok?
    ensures var s := Normalize(given);
      && s.domain == given.domain && s.id !in r.connections
      && AddSettings(r, given, syntax).value.connections == r.connections[s.id := s]
  {
    hide IsValid, Ports, NormalizeDomain;
  }

  lemma OneMoreHost(connections: Connections, s: Settings)
    requires HostsDistinct(connections) && s.id !in connections
    ensures HostsDistinct(connections[s.id := s]) <==>
      forall id :: id in connections ==>
                     NormalizeDomain(connections[id].domain) != NormalizeDomain(s.domain)
  {
    hide NormalizeDomain;
    var after := connections[s.id := s];
    if HostsDistinct(after) {
      forall id | id in connections
        ensures NormalizeDomain(connections[id].domain) != NormalizeDomain(s.domain)
      {
        assert after[id] == connections[id] && after[s.id] == s;
      }
    }
  }

  /** Two connections for one host name. */
  lemma SameHostTwice(syntax: Syntax)
    requires syntax.isLoopback("127.0.0.1") && syntax.isTarget("http://a")
    ensures exists events: seq<Event>, a: string, b: string ::
              var connections := Run(EMPTY, events, syntax).connections;
              && a in connections && b in connections && a != b
              && NormalizeDomain(connections[a].domain) == NormalizeDomain(connections[b].domain)
  {
    hide NormalizeDomain;
    var lower, upper := "a.test", "A.test";
    var first := Settings("a", "A", lower, "127.0.0.1", 3000, "http://a", [], 120, false, None);
    var second := Settings("b", "B", upper, "127.0.0.1", 3001, "http://a", [], 120, false, None);
    AShortDomain(lower);
    AShortDomain(upper);
    var events := [Restore(first), Restore(second)];
    assert events[1..] == [Restore(second)] && events[1..][1..] == [];
    var r1 := Apply(EMPTY, events[0], syntax);
    assert r1.connections == map["a" := first];
    assert lower[0] != upper[0];
    assert Conflict(r1.connections, second, None) == None;
    var r2 := Apply(r1, events[1], syntax);
    assert r2.connections == map["a" := first, "b" := second];
    assert Run(r2, [], syntax) == r2;
    assert Run(r1, [Restore(second)], syntax) == r2;
    assert Run(EMPTY, events, syntax) == r2;
    assert "a"[0] != "b"[0];
    assert NormalizeDomain(r2.connections["a"].domain) == NormalizeDomain(r2.connections["b"].domain);
  }

  lemma AShortDomain(s: string)
    requires s in {"a.test", "A.test"}
    ensures NormalizeDomain(s) == Some("a.test")
  {
    ShortIsDomain();
    hide IsDomain;
    assert TrimStart(s) == s;
    assert TrimEnd(s) == s && TrimEndOf(s, '.') == s;
    assert Lower(s) == "a.test";
  }

  lemma ShortIsDomain()
    ensures IsDomain("a.test")
  {
    var d := "a.test";
    SplitFirst("a", '.', "test");
    SplitPiece("test", '.');
    assert "a" + ['.'] + "test" == d;
    assert Split(d, '.') == ["a", "test"];
    assert IsLabel("a") && IsLabel("test");
    assert d[|d| - 5..] == ".test";
  }
}

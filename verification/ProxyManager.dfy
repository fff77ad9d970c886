/** The proxy manager as the object that is changed step by step. Each operation leaves the registry
    that `Proxy` specifies for it; `bound` and the like tell what binding a port came to. */
module ProxyManager {
  import opened Wrappers
  import opened Text
  import opened Proxy
  import ProxyRuns

  class ProxyManager {
    const syntax: Syntax
    var connections: Connections
    var running: map<string, Running>
    var failed: set<string>

    constructor (syntax: Syntax)
      ensures this.syntax == syntax && Contents() == EMPTY
    {
      this.syntax, connections, running, failed := syntax, map[], map[], {};
    }

    function Contents(): Registry
      reads this
    {
      Registry(connections, running, failed)
    }

    /** Whether listening at a connection's port succeeds. */
    method Bind() returns (bound: bool)
    {
      bound := *;
    }

    method AddSettings(given: Settings) returns (r: Result<(), Error>)
      modifies this
      ensures match Proxy.AddSettings(old(Contents()), given, syntax)
              case Ok(next) => r == Ok(()) && Contents() == next
              case Err(e) => r == Err(e) && Contents() == old(Contents())
    {
      var settings := Normalize(given);
      if !IsValid(settings, syntax) {
        return Err(Invalid);
      }
      var conflict := Conflict(connections, settings, None);
      if conflict.Some? {
        return Err(conflict.value);
      }
      connections := connections[settings.id := settings];
      r := Ok(());
    }

    method Add(input: Input) returns (r: Result<string, Error>)
      modifies this
      ensures match Proxy.Add(old(Contents()), input, syntax)
              case Ok(next) => r.Ok? && Contents() == next && r.value in connections
              case Err(e) => r == Err(e) && Contents() == old(Contents())
    {
      var settings := FromInput(input, syntax);
      if settings.Err? {
        return Err(settings.error);
      }
      var added := AddSettings(settings.value);
      if added.Err? {
        return Err(added.error);
      }
      r := Ok(settings.value.id);
    }

    method Stop(id: string) returns (r: Result<(), Error>)
      modifies this
      ensures r == (if id in old(connections) then Ok(()) else Err(UnknownId))
      ensures Contents() == if r.Ok? then Stopped(old(Contents()), id) else old(Contents())
    {
      if id !in connections {
        return Err(UnknownId);
      }
      failed := failed - {id};
      running := running - {id};
      r := Ok(());
    }

    method Start(id: string) returns (r: Result<(), Error>, ghost bound: bool)
      requires id in running ==> id in connections
      modifies this
      ensures r == (if id in old(connections) then Ok(()) else Err(UnknownId))
      ensures Contents() == if r.Ok? then Started(old(Contents()), id, bound) else old(Contents())
    {
      bound := false;
      if id in running {
        if !running[id].finished {
          r := Ok(());
          return;
        }
        r := Stop(id);
      }
      if id !in connections {
        return Err(UnknownId), bound;
      }
      var settings := connections[id];
      failed := failed - {id};
      var listening := Bind();
      bound := listening;
      if listening {
        running := running[id := Running(settings, false)];
      } else {
        failed := failed + {id};
      }
      r := Ok(());
    }

    method Update(id: string, input: Input) returns (r: Result<Updated, Error>, ghost first: bool, ghost second: bool)
      requires ProxyRuns.Inv(Contents(), syntax)
      modifies this
      ensures (r, Contents()) == Proxy.Update(old(Contents()), id, input, syntax, first, second)
      ensures ProxyRuns.Inv(Contents(), syntax)
    {
      first, second := false, false;
      ProxyRuns.UpdateInv(Contents(), id, input, syntax, first, second);
      if id !in connections {
        return Err(UnknownId), first, second;
      }
      var previous := connections[id];
      var settings := FromInput(input, syntax);
      if settings.Err? {
        return Err(settings.error), first, second;
      }
      if settings.value.id != id {
        return Err(IdChanged), first, second;
      }
      var conflict := Conflict(connections, settings.value, Some(id));
      if conflict.Some? {
        return Err(conflict.value), first, second;
      }
      r, first, second := Replace(id, previous, settings.value);
      ProxyRuns.UpdateInv(old(Contents()), id, input, syntax, first, second);
    }

    /** The part of an update that changes something. */
    method Replace(id: string, previous: Settings, settings: Settings)
      returns (r: Result<Updated, Error>, ghost first: bool, ghost second: bool)
      requires id in connections && previous == connections[id] && settings.id == id
      requires Conflict(connections, settings, Some(id)).None?
      requires running.Keys !! failed
      modifies this
      ensures (r, Contents()) == UpdateTo(old(Contents()), id, Ok(settings), first, second)
    {
      first, second := false, false;
      hide Conflict;
      var wasRunning := id in running;
      if wasRunning {
        var stopped := Stop(id);
      }
      failed := failed - {id};
      connections := connections[id := settings];
      assert Contents() == Stored(old(Contents()), settings);
      if wasRunning {
        var started;
        started, first := Start(id);
        if id in failed {
          connections := connections[id := previous];
          assert connections == old(connections);
          assert Stopped(Contents(), id) ==
                 Stopped(Stored(old(Contents()), settings).(connections := old(connections)), id);
          started, second := Start(id);
          return Err(BindFailed), first, second;
        }
      }
      r := Ok(Updated(previous, wasRunning));
    }

    method RestoreUpdate(given: Settings, shouldRun: bool) returns (r: Result<(), Error>, ghost bound: bool)
      requires running.Keys <= connections.Keys
      modifies this
      ensures (r, Contents()) == Proxy.RestoreUpdate(old(Contents()), given, shouldRun, syntax, bound)
    {
      bound := false;
      var settings := Normalize(given);
      var id := settings.id;
      if !IsValid(settings, syntax) {
        return Err(Invalid), bound;
      }
      var conflict := Conflict(connections, settings, Some(id));
      if conflict.Some? {
        return Err(conflict.value), bound;
      }
      hide Conflict, IsValid, Normalize;
      r := Stop(id);
      if r.Err? {
        return;
      }
      failed := failed - {id};
      connections := connections[id := settings];
      assert Contents() == Stored(old(Contents()), settings);
      if shouldRun {
        r, bound := Start(id);
      }
    }

    method Remove(id: string) returns (r: Result<Settings, Error>)
      modifies this
      ensures r == (if id in old(connections) then Ok(old(connections)[id]) else Err(UnknownId))
      ensures Contents() == if r.Ok? then Removed(old(Contents()), id) else old(Contents())
    {
      if id !in connections {
        return Err(UnknownId);
      }
      var settings := connections[id];
      var stopped := Stop(id);
      failed := failed - {id};
      connections := connections - {id};
      r := Ok(settings);
    }

    /** Afterwards every connection runs or has failed, and the settings are what they were. */
    method StartAll()
      requires ProxyRuns.Inv(Contents(), syntax)
      modifies this
      ensures ProxyRuns.Inv(Contents(), syntax) && connections == old(connections)
      ensures forall id :: id in connections ==> IsUp(Contents(), id) || id in failed
      ensures forall id :: id in old(running) && !old(running)[id].finished ==>
                             id in running && running[id] == old(running)[id]
    {
      hide ProxyRuns.KeyedAndValid, ProxyRuns.PairwiseApart;
      var ids := connections.Keys;
      while ids != {}
        invariant ids <= connections.Keys && connections == old(connections)
        invariant ProxyRuns.Inv(Contents(), syntax)
        invariant forall id :: id in connections && id !in ids ==> IsUp(Contents(), id) || id in failed
        invariant forall id :: id in old(running) && !old(running)[id].finished ==>
                                 id in running && running[id] == old(running)[id]
        decreases ids
      {
        var id :| id in ids;
        ghost var before := Contents();
        ghost var bound;
        var r;
        r, bound := Start(id);
        ProxyRuns.StartedInv(before, id, bound, syntax);
        ids := ids - {id};
      }
    }

    method StopAll()
      requires ProxyRuns.Inv(Contents(), syntax)
      modifies this
      ensures Contents() == Registry(old(connections), map[], {})
    {
      var ids := connections.Keys;
      while ids != {}
        invariant ids <= connections.Keys && connections == old(connections)
        invariant running.Keys <= ids && failed <= ids
        decreases ids
      {
        var id :| id in ids;
        var r := Stop(id);
        ids := ids - {id};
      }
    }

    /** Every connection once, in the order of the HTTP ports. */
    method List() returns (list: seq<Settings>)
      requires ProxyRuns.Inv(Contents(), syntax)
      ensures ProxyRuns.Lists(list, connections)
      ensures forall i, j :: 0 <= i < j < |list| ==> list[i].listenPort <= list[j].listenPort
    {
      list := [];
      var rest := connections.Keys;
      while rest != {}
        invariant rest <= connections.Keys && ProxyRuns.Listing(list, rest, connections)
        decreases rest
      {
        var id := Least(rest);
        ProxyRuns.ListingGrows(list, rest, connections, id);
        list := list + [connections[id]];
        rest := rest - {id};
      }
    }

    /** One of `ids` with the least HTTP port. */
    method Least(ids: set<string>) returns (least: string)
      requires ids != {} && ids <= connections.Keys
      ensures least in ids
      ensures forall id :: id in ids ==> connections[least].listenPort <= connections[id].listenPort
    {
      least :| least in ids;
      var rest := ids - {least};
      while rest != {}
        invariant least in ids && rest <= ids
        invariant forall id :: id in ids && id !in rest ==>
                                 connections[least].listenPort <= connections[id].listenPort
        decreases rest
      {
        var id :| id in rest;
        if connections[id].listenPort < connections[least].listenPort {
          least := id;
        }
        rest := rest - {id};
      }
    }
  }

  /** A manager with the given connections, or the first reason why they cannot be stored together. */
  method NewManager(list: seq<Settings>, syntax: Syntax) returns (r: Result<ProxyManager, Error>)
    ensures match ProxyRuns.AddAll(EMPTY, list, syntax)
            case Ok(registry) =>
              r.Ok? && fresh(r.value) && r.value.syntax == syntax && r.value.Contents() == registry
            case Err(e) => r == Err(e)
  {
    var manager := new ProxyManager(syntax);
    var i := 0;
    while i < |list|
      invariant 0 <= i <= |list|
      invariant ProxyRuns.AddAll(manager.Contents(), list[i..], syntax) ==
                ProxyRuns.AddAll(EMPTY, list, syntax)
    {
      assert list[i..][1..] == list[i + 1..];
      var added := manager.AddSettings(list[i]);
      if added.Err? {
        return Err(added.error);
      }
      i := i + 1;
    }
    r := Ok(manager);
  }
}

/** The proxy connections as a value: what settings are valid, when they can be stored side by side,
    and what each operation of the manager does to the registry. */
module Proxy {
  import opened Wrappers
  import opened Text
  import opened Domains
  import ContentRange

  const DEFAULT_TIMEOUT: nat := 120
  const MAX_TIMEOUT: nat := 360
  const MIN_PORT: nat := 1024
  const MAX_PORT: nat := 65535

  type Port = p: nat | p <= MAX_PORT

  datatype Settings = Settings(
    id: string,
    name: string,
    domain: string,
    listenHost: string,
    listenPort: Port,
    target: string,
    allowedOrigins: seq<string>,
    timeout: nat,
    secured: bool,
    httpsPort: Option<Port>)

  datatype Input = Input(
    id: string,
    domain: string,
    listenPort: Port,
    target: string,
    allowedOrigins: seq<string>,
    timeout: Option<nat>,
    secured: bool,
    httpsPort: Option<Port>)

  /** Parsers of other libraries: whether a host is a loopback address, whether a target is an absolute
      HTTP URL, the normal form of a list of origins for a domain. */
  datatype Syntax = Syntax(
    isLoopback: string -> bool,
    isTarget: string -> bool,
    normalizeOrigins: (seq<string>, string) -> Option<seq<string>>)

  datatype Error =
    | Invalid
    | DuplicateId
    | PortConflict
    | DomainConflict
    | UnknownId
    | IdChanged
    | BindFailed

  // ---- ports ----

  /** "4" before the HTTP port, if that is a port. */
  function DefaultHttpsPort(port: Port): Option<Port> {
    var value := ContentRange.ParseNumber("4" + ContentRange.Decimal(port));
    if value <= MAX_PORT then Some(value) else None
  }

  function Power(n: nat): nat {
    if n < 10 then 10 else 10 * Power(n / 10)
  }

  lemma {:induction false} ParseFour(port: nat)
    ensures ContentRange.ParseNumber("4" + ContentRange.Decimal(port)) == 4 * Power(port) + port
  {
    var s := "4" + ContentRange.Decimal(port);
    if port < 10 {
      assert s[..1] == "4" && "4"[..0] == "";
      assert ContentRange.ParseNumber("4") == 4;
    } else {
      assert s[..|s| - 1] == "4" + ContentRange.Decimal(port / 10);
      ParseFour(port / 10);
    }
  }

  /** The default port: "4" in front adds four times the power of ten above the port, and a five-digit port
      has none. */
  lemma DefaultHttpsPortIs(port: Port)
    ensures DefaultHttpsPort(port) ==
      if port < 10 then Some(40 + port)
      else if port < 100 then Some(400 + port)
      else if port < 1000 then Some(4000 + port)
      else if port < 10000 then Some(40000 + port)
      else None
  {
    ParseFour(port);
    PowerIs(port);
  }

  lemma PowerIs(n: nat)
    requires n <= MAX_PORT
    ensures Power(n) ==
      if n < 10 then 10 else if n < 100 then 100 else if n < 1000 then 1000 else if n < 10000 then 10000 else 100000
  {
    if n >= 10 {
      assert Power(n) == 10 * Power(n / 10);
      PowerIs(n / 10);
    }
  }

  /** The default of a valid HTTP port is a valid port and not the HTTP port itself. */
  lemma DefaultHttpsPortValid(port: Port)
    requires MIN_PORT <= port && DefaultHttpsPort(port).Some?
    ensures MIN_PORT <= DefaultHttpsPort(port).value != port
  {
    DefaultHttpsPortIs(port);
  }

  // ---- settings ----

  predicate IdChar(c: char) {
    'a' <= c <= 'z' || '0' <= c <= '9' || c == '-'
  }

  predicate IsValid(s: Settings, syntax: Syntax) {
    && s.id != "" && (forall i :: 0 <= i < |s.id| ==> IdChar(s.id[i]))
    && MIN_PORT <= s.listenPort
    && (s.secured ==> s.httpsPort.Some?)
    && (s.httpsPort.Some? ==> MIN_PORT <= s.httpsPort.value != s.listenPort)
    && s.timeout <= MAX_TIMEOUT
    && NormalizeDomain(s.domain).Some?
    && syntax.isLoopback(s.listenHost)
    && syntax.isTarget(s.target)
  }

  /** The unpublished shared port 443 and a missing secure port become the default, as does a missing
      timeout. */
  function Normalize(s: Settings): Settings {
    var ported :=
      if s.httpsPort == Some(443) || (s.secured && s.httpsPort.None?) then
        s.(httpsPort := DefaultHttpsPort(s.listenPort))
      else
        s;
    if ported.timeout == 0 then ported.(timeout := DEFAULT_TIMEOUT) else ported
  }

  function FromInput(input: Input, syntax: Syntax): (r: Result<Settings, Error>)
    ensures r.Ok? ==> IsValid(r.value, syntax)
    ensures r.Err? ==> r.error == Invalid
  {
    var id := Lower(Trim(input.id));
    match NormalizeDomain(input.domain)
    case None => Err(Invalid)
    case Some(domain) =>
      match syntax.normalizeOrigins(input.allowedOrigins, domain)
      case None => Err(Invalid)
      case Some(origins) =>
        var https :=
          if input.httpsPort.Some? then input.httpsPort
          else if input.secured then DefaultHttpsPort(input.listenPort)
          else None;
        var timeout :=
          if input.timeout.Some? && input.timeout.value != 0 then input.timeout.value else DEFAULT_TIMEOUT;
        var settings := Settings(
          id, Upper(id), domain, "127.0.0.1", input.listenPort, TrimEndOf(Trim(input.target), '/'),
          origins, timeout, input.secured, https);
        if IsValid(settings, syntax) then Ok(settings) else Err(Invalid)
  }

  predicate IsNormal(s: Settings) {
    s.timeout != 0 && s.httpsPort != Some(443) && (s.secured ==> s.httpsPort.Some?)
  }

  /** Valid settings are in normal form once normalized, and exactly the settings in normal form
      are left alone. */
  lemma NormalForm(s: Settings, syntax: Syntax)
    ensures IsValid(Normalize(s), syntax) ==> IsNormal(Normalize(s)) && Normalize(Normalize(s)) == Normalize(s)
    ensures IsValid(s, syntax) ==> (Normalize(s) == s <==> s.timeout != 0)
  {
  }

  lemma FromInputNormal(input: Input, syntax: Syntax)
    requires FromInput(input, syntax).Ok?
    ensures var s := FromInput(input, syntax).value;
            IsValid(s, syntax) && IsNormal(s) && NormalizeDomain(s.domain) == Some(s.domain)
  {
    NormalizeIdempotent(input.domain);
  }

  // ---- the registry ----

  type Connections = map<string, Settings>

  /** `finished`: the task has stopped by itself. */
  datatype Running = Running(settings: Settings, finished: bool)

  datatype Registry = Registry(connections: Connections, running: map<string, Running>, failed: set<string>)

  const EMPTY := Registry(map[], map[], {})

  function Ports(s: Settings): set<Port> {
    {s.listenPort} + if s.secured && s.httpsPort.Some? then {s.httpsPort.value} else {}
  }

  /** Why settings cannot stand beside the stored ones, leaving aside those with the id
      `replacing`. */
  function Conflict(connections: Connections, s: Settings, replacing: Option<string>): (e: Option<Error>)
    ensures e.Some? ==> e.value in {DuplicateId, PortConflict, DomainConflict}
  {
    if s.id in connections && replacing != Some(s.id) then
      Some(DuplicateId)
    else if exists id :: id in connections && replacing != Some(connections[id].id) &&
                         !(Ports(connections[id]) !! Ports(s)) then
      Some(PortConflict)
    else if exists id :: id in connections && replacing != Some(connections[id].id) &&
                         connections[id].domain == s.domain then
      Some(DomainConflict)
    else
      None
  }

  function AddSettings(r: Registry, given: Settings, syntax: Syntax): Result<Registry, Error> {
    var s := Normalize(given);
    if !IsValid(s, syntax) then
      Err(Invalid)
    else
      match Conflict(r.connections, s, None)
      case Some(e) => Err(e)
      case None => Ok(r.(connections := r.connections[s.id := s]))
  }

  function Add(r: Registry, input: Input, syntax: Syntax): Result<Registry, Error> {
    var parsed := FromInput(input, syntax);
    if parsed.Err? then Err(parsed.error) else AddSettings(r, parsed.value, syntax)
  }

  function Stopped(r: Registry, id: string): Registry {
    r.(running := r.running - {id}, failed := r.failed - {id})
  }

  predicate IsUp(r: Registry, id: string) {
    id in r.running && !r.running[id].finished
  }

  /** `bound`: whether the port can be had. */
  function Started(r: Registry, id: string, bound: bool): Registry
    requires id in r.connections
  {
    if IsUp(r, id) then
      r
    else
      var stopped := Stopped(r, id);
      if bound then
        stopped.(running := stopped.running[id := Running(r.connections[id], false)])
      else
        stopped.(failed := stopped.failed + {id})
  }

  function Stored(r: Registry, s: Settings): Registry {
    Stopped(r, s.id).(connections := r.connections[s.id := s])
  }

  datatype Updated = Updated(previous: Settings, wasRunning: bool)

  /** The new settings are stored; if the connection was running it is restarted, and if its ports
      cannot be had the previous settings come back. `second` is about the ports of those. */
  function Update(r: Registry, id: string, input: Input, syntax: Syntax, first: bool, second: bool)
    : (Result<Updated, Error>, Registry)
  {
    UpdateTo(r, id, FromInput(input, syntax), first, second)
  }

  function UpdateTo(r: Registry, id: string, parsed: Result<Settings, Error>, first: bool, second: bool)
    : (Result<Updated, Error>, Registry)
  {
    if id !in r.connections then
      (Err(UnknownId), r)
    else
      var previous := r.connections[id];
      match parsed
      case Err(e) => (Err(e), r)
      case Ok(s) =>
        if s.id != id then
          (Err(IdChanged), r)
        else
          match Conflict(r.connections, s, Some(id))
          case Some(e) => (Err(e), r)
          case None =>
            if id !in r.running then
              (Ok(Updated(previous, false)), Stored(r, s))
            else if first then
              (Ok(Updated(previous, true)), Started(Stored(r, s), id, true))
            else
              (Err(BindFailed), Started(Stored(r, s).(connections := r.connections), id, second))
  }

  function RestoreUpdate(r: Registry, given: Settings, run: bool, syntax: Syntax, bound: bool)
    : (Result<(), Error>, Registry)
  {
    var s := Normalize(given);
    if !IsValid(s, syntax) then
      (Err(Invalid), r)
    else
      match Conflict(r.connections, s, Some(s.id))
      case Some(e) => (Err(e), r)
      case None =>
        if s.id !in r.connections then
          (Err(UnknownId), r)
        else
          (Ok(()), if run then Started(Stored(r, s), s.id, bound) else Stored(r, s))
  }

  function Removed(r: Registry, id: string): Registry {
    Stopped(r, id).(connections := r.connections - {id})
  }
}
